/**
 * The copy-on-write mutation engine shared by the two page components:
 * src/components/Builder.tsx (variant V2) and src/components/Builder2.tsx
 * (variant V1). Each edit either commits a new document (the value handed to
 * `setEmbedData`) or is turned away with a toast and leaves the document as
 * it was. The closure snapshot `embedData` the guards read and the `prev`
 * the commit maps over are one and the same document here.
 */
module Engine {
  import opened Wrappers
  import opened Document
  import Presets
  import Codec
  import Lists

  datatype Variant = V1 | V2

  /** The toast an edit is turned away with. */
  datatype Violation = MaxEmbeds | MaxFields | AuthorNameTooLong | FooterTextTooLong | TotalCharsExceeded

  /**
   * What an edit handler does: commit a new document, reject with a toast, or
   * stop on a `TypeError` thrown before the commit (no toast, no commit).
   */
  datatype Outcome = Committed(doc: EmbedData) | Rejected(violation: Violation) | Aborted

  /** The document after an outcome: rejections and aborts leave it as it was. */
  function After(doc: EmbedData, o: Outcome): EmbedData {
    if o.Committed? then o.doc else doc
  }

  /** One `updateEmbed(i, key, value)` call: the key and the value of the right type for it. */
  datatype EmbedUpdate =
    | SetColor(color: int)
    | SetFields(fields: seq<Field>)
    | SetAuthor(author: Author)
    | SetFooter(footer: Footer)
    | SetTimestamp(timestamp: string)
    | SetImage(image: Image)

  /** `{ ...e, [key]: value }`: the addressed key takes the value, every other key keeps its own. */
  function Assign(e: Embed, u: EmbedUpdate): (r: Embed)
    ensures r.color == (if u.SetColor? then u.color else e.color)
    ensures r.fields == (if u.SetFields? then u.fields else e.fields)
    ensures r.author == (if u.SetAuthor? then Some(u.author) else e.author)
    ensures r.footer == (if u.SetFooter? then Some(u.footer) else e.footer)
    ensures r.timestamp == (if u.SetTimestamp? then Some(u.timestamp) else e.timestamp)
    ensures r.image == (if u.SetImage? then Some(u.image) else e.image)
  {
    match u
    case SetColor(c) => e.(color := c)
    case SetFields(fs) => e.(fields := fs)
    case SetAuthor(a) => e.(author := Some(a))
    case SetFooter(f) => e.(footer := Some(f))
    case SetTimestamp(t) => e.(timestamp := Some(t))
    case SetImage(im) => e.(image := Some(im))
  }

  /**
   * Stands for the `{}` that spreading a missing `embeds[i]` yields: nothing
   * the character count measures is present (its colour is never read).
   */
  const Missing: Embed := Embed(0, [], None, None, None, None)

  /** `{ ...embedData.embeds[i], [key]: value }`, the embed the budget is measured on. */
  function Prospective(doc: EmbedData, i: nat, u: EmbedUpdate): Embed {
    Assign(if i < |doc.embeds| then doc.embeds[i] else Missing, u)
  }

  predicate AuthorTooLong(u: EmbedUpdate) {
    u.SetAuthor? && u.author.name.Some? && |u.author.name.value| > AuthorNameLimit
  }

  predicate FooterTooLong(u: EmbedUpdate) {
    u.SetFooter? && u.footer.text.Some? && |u.footer.text.value| > FooterTextLimit
  }

  /**
   * V1's `calculateEmbedCharCount` calls `embed.fields.forEach` without a
   * guard, which throws on the partial object a missing embed gives unless
   * the update itself supplies `fields`; V2 guards with `if (embed.fields)`.
   */
  predicate CountThrows(v: Variant, doc: EmbedData, i: nat, u: EmbedUpdate) {
    v == V1 && i >= |doc.embeds| && !u.SetFields?
  }

  /** The document with `embeds.map((e, k) => k === i ? { ...e, [key]: value } : e)`. */
  function Commit(doc: EmbedData, i: nat, u: EmbedUpdate): EmbedData {
    doc.(embeds := seq(|doc.embeds|, k requires 0 <= k < |doc.embeds| =>
      if k == i then Assign(doc.embeds[k], u) else doc.embeds[k]))
  }

  /** `updateEmbed(i, key, value)`: author length, footer length, then the total budget. */
  function UpdateEmbed(v: Variant, doc: EmbedData, i: nat, u: EmbedUpdate): (r: Outcome)
    ensures r == Rejected(AuthorNameTooLong) <==> AuthorTooLong(u)
    ensures r == Rejected(FooterTextTooLong) <==> FooterTooLong(u)
    ensures r == Rejected(TotalCharsExceeded) <==>
      !AuthorTooLong(u) && !FooterTooLong(u) && !CountThrows(v, doc, i, u)
      && CharCount(Prospective(doc, i, u)) > TotalCharsLimit
    ensures r.Aborted? <==> !AuthorTooLong(u) && !FooterTooLong(u) && CountThrows(v, doc, i, u)
    ensures r.Committed? <==>
      !AuthorTooLong(u) && !FooterTooLong(u) && !CountThrows(v, doc, i, u)
      && CharCount(Prospective(doc, i, u)) <= TotalCharsLimit
    ensures r.Committed? ==>
      && r.doc.content == doc.content && r.doc.username == doc.username
      && r.doc.avatarUrl == doc.avatarUrl && r.doc.attachments == doc.attachments
      && |r.doc.embeds| == |doc.embeds|
      && (forall k :: 0 <= k < |doc.embeds| && k != i ==> r.doc.embeds[k] == doc.embeds[k])
      && (i < |doc.embeds| ==> r.doc.embeds[i] == Prospective(doc, i, u))
      && CharCount(Prospective(doc, i, u)) <= TotalCharsLimit
  {
    if AuthorTooLong(u) then Rejected(AuthorNameTooLong)
    else if FooterTooLong(u) then Rejected(FooterTextTooLong)
    else if CountThrows(v, doc, i, u) then Aborted
    else if CharCount(Prospective(doc, i, u)) > TotalCharsLimit then Rejected(TotalCharsExceeded)
    else Committed(Commit(doc, i, u))
  }

  /** `removeEmbed(i)` */
  function RemoveEmbed(doc: EmbedData, i: nat): EmbedData {
    doc.(embeds := Lists.RemoveIndex(doc.embeds, i))
  }

  datatype MetadataKey = Content | Username | AvatarUrl

  /** `updateMetadata(key, value)` */
  function UpdateMetadata(doc: EmbedData, key: MetadataKey, value: string): EmbedData {
    match key
    case Content => doc.(content := value)
    case Username => doc.(username := value)
    case AvatarUrl => doc.(avatarUrl := value)
  }

  /**
   * The clock readings taken once, when the modules are loaded: the
   * "today at HH:00" reading the presets use, and V1's `new Date().toISOString()`.
   */
  datatype Loaded = Loaded(todayAt: int -> string, instant: string)

  /** V2's `defaultEmbedStructure`. */
  const BareEmbed: Embed := Embed(0, [], Some(Author(Some(""), None, None)), Some(Footer(Some(""))), None, None)

  /** V1's `defaultEmbed`, whose timestamp is the instant the module was loaded. */
  function DefaultEmbedV1(loaded: Loaded): Embed {
    Presets.StoreEmbed("Epic Games Store", Presets.EpicIcon, loaded.instant)
  }

  /** The seeding lookup's test of one preset against the document's first embed. */
  predicate PresetMatches(p: EmbedData, doc: EmbedData)
    requires |doc.embeds| > 0
  {
    && p.username == doc.username
    && p.avatarUrl == doc.avatarUrl
    && Presets.FirstIconUrl(p) == (if doc.embeds[0].author.Some? then doc.embeds[0].author.value.iconUrl else None)
  }

  /** `Object.entries(presets).find(...)` over the names from position k on. */
  function FindPreset(doc: EmbedData, todayAt: int -> string, k: nat): (r: Option<Presets.PresetName>)
    requires |doc.embeds| > 0
    ensures r.Some? ==> PresetMatches(Presets.Preset(r.value, todayAt), doc)
    ensures r.Some? ==> (exists j :: k <= j < |Presets.Order| && Presets.Order[j] == r.value &&
                          (forall i :: k <= i < j ==> !PresetMatches(Presets.Preset(Presets.Order[i], todayAt), doc)))
    ensures r.None? ==> forall j :: k <= j < |Presets.Order| ==> !PresetMatches(Presets.Preset(Presets.Order[j], todayAt), doc)
    decreases |Presets.Order| - k
  {
    if k >= |Presets.Order| then None
    else if PresetMatches(Presets.Preset(Presets.Order[k], todayAt), doc) then Some(Presets.Order[k])
    else FindPreset(doc, todayAt, k + 1)
  }

  /** `Object.assign(newEmbed, { ...p })`: every key present in p overwrites newEmbed's. */
  function Overlay(base: Embed, p: Embed): Embed {
    Embed(p.color, p.fields,
      if p.author.Some? then p.author else base.author,
      if p.footer.Some? then p.footer else base.footer,
      if p.timestamp.Some? then p.timestamp else base.timestamp,
      if p.image.Some? then p.image else base.image)
  }

  /** A copied preset embed with a truthy timestamp gets "today at" the preset's hour instead. */
  function Restamp(e: Embed, name: Presets.PresetName, nowAt: int -> string): Embed {
    if e.timestamp.Some? && e.timestamp.value != "" then e.(timestamp := Some(nowAt(Presets.CanonicalHour(name)))) else e
  }

  /** The embed V2's `addEmbed` appends; `nowAt` is the clock reading at the click. */
  function NewEmbedV2(doc: EmbedData, loaded: Loaded, nowAt: int -> string): Embed {
    if |doc.embeds| == 0 then BareEmbed
    else match FindPreset(doc, loaded.todayAt, 0)
      case None => BareEmbed
      case Some(name) =>
        var p := Presets.Preset(name, loaded.todayAt);
        if |p.embeds| == 0 then BareEmbed
        else Restamp(Overlay(BareEmbed, p.embeds[0]), name, nowAt)
  }

  /** The embed `addEmbed` appends in each variant. */
  function NewEmbed(v: Variant, doc: EmbedData, loaded: Loaded, nowAt: int -> string): Embed {
    if v == V2 then NewEmbedV2(doc, loaded, nowAt) else DefaultEmbedV1(loaded)
  }

  /** `addEmbed()` */
  function AddEmbed(v: Variant, doc: EmbedData, loaded: Loaded, nowAt: int -> string): (r: Outcome)
    ensures r.Rejected? <==> |doc.embeds| >= EmbedsLimit
    ensures r.Rejected? ==> r.violation == MaxEmbeds
    ensures !r.Aborted?
    ensures r.Committed? ==>
      && |r.doc.embeds| == |doc.embeds| + 1
      && r.doc.embeds[..|doc.embeds|] == doc.embeds
      && r.doc.embeds[|doc.embeds|] == NewEmbed(v, doc, loaded, nowAt)
      && r.doc.(embeds := doc.embeds) == doc
  {
    if |doc.embeds| >= EmbedsLimit then Rejected(MaxEmbeds)
    else Committed(doc.(embeds := doc.embeds + [NewEmbed(v, doc, loaded, nowAt)]))
  }

  /** V2's `defaultEmbedData`: the default preset with no embeds. */
  function DefaultEmbedData(loaded: Loaded): EmbedData {
    Presets.Preset(Presets.Default, loaded.todayAt).(embeds := [])
  }

  /** V1's fallback document. */
  function FallbackV1(loaded: Loaded): EmbedData {
    EmbedData(Presets.RoleMention, [DefaultEmbedV1(loaded)], Presets.FreeGames, Presets.BotAvatar, Some([]))
  }

  /** `decodeEmbedData(dataParam)` when the query parameter is present and not empty, None otherwise. */
  function DecodedParam(f: Codec.Foreign, dataParam: Option<string>): Option<EmbedData> {
    if dataParam.Some? && dataParam.value != "" then Codec.DecodeEmbedData(f, dataParam.value) else None
  }

  /** The `useState` initialiser: the decoded document when the variant accepts it, its fallback otherwise. */
  function InitialDocument(v: Variant, f: Codec.Foreign, dataParam: Option<string>, loaded: Loaded): EmbedData {
    var decoded := DecodedParam(f, dataParam);
    match v
    case V2 => if decoded.Some? && |decoded.value.embeds| > 0 then decoded.value else DefaultEmbedData(loaded)
    case V1 => if decoded.Some? then decoded.value else FallbackV1(loaded)
  }
}
