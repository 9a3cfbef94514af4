/**
 * What the mutation engine and the field editor promise, stated over the
 * pure operations of modules Engine and Editor.
 */
module Properties {
  import opened Wrappers
  import opened Document
  import opened Engine
  import opened Editor
  import Presets
  import Codec
  import Base64
  import Lists

  /**
   * An embed edit that is turned away leaves the document as it was, so
   * repeating it is turned away again with the same toast; one that commits
   * can be repeated and then commits the same document again.
   */
  lemma RetryGivesSameOutcome(v: Variant, doc: EmbedData, i: nat, u: EmbedUpdate)
    ensures var r := UpdateEmbed(v, doc, i, u);
      && (!r.Committed? ==> After(doc, r) == doc && UpdateEmbed(v, After(doc, r), i, u) == r)
      && (r.Committed? ==> UpdateEmbed(v, r.doc, i, u) == r)
  {
    var r := UpdateEmbed(v, doc, i, u);
    if r.Committed? {
      var c := r.doc;
      assert |c.embeds| == |doc.embeds|;
      if i < |doc.embeds| {
        assert Prospective(c, i, u) == Prospective(doc, i, u);
        assert Assign(c.embeds[i], u) == c.embeds[i];
        assert c.embeds == Commit(c, i, u).embeds;
      } else {
        assert c.embeds == doc.embeds;
      }
    }
  }

  /** `removeEmbed(i)` deletes exactly position i, shifting later embeds down; other keys are kept. */
  lemma RemoveEmbedSpec(doc: EmbedData, i: nat)
    ensures var r := RemoveEmbed(doc, i);
      && r.content == doc.content && r.username == doc.username
      && r.avatarUrl == doc.avatarUrl && r.attachments == doc.attachments
      && |r.embeds| == (if i < |doc.embeds| then |doc.embeds| - 1 else |doc.embeds|)
      && (forall j :: 0 <= j < |r.embeds| ==> r.embeds[j] == doc.embeds[if j < i then j else j + 1])
      && (i >= |doc.embeds| ==> r == doc)
  {
    Lists.RemoveIndexSpec(doc.embeds, i);
    Lists.RemoveIndexSlices(doc.embeds, i);
  }

  /** `updateMetadata` replaces exactly the addressed key and keeps the embeds. */
  lemma UpdateMetadataSpec(doc: EmbedData, key: MetadataKey, value: string)
    ensures var r := UpdateMetadata(doc, key, value);
      && r.embeds == doc.embeds && r.attachments == doc.attachments
      && r.content == (if key == Content then value else doc.content)
      && r.username == (if key == Username then value else doc.username)
      && r.avatarUrl == (if key == AvatarUrl then value else doc.avatarUrl)
  {
  }

  /** A default-preset match excludes a store-preset match: their usernames differ. */
  lemma DefaultExcludesStores(doc: EmbedData, todayAt: int -> string)
    requires |doc.embeds| > 0
    requires PresetMatches(Presets.Preset(Presets.Default, todayAt), doc)
    ensures !PresetMatches(Presets.Preset(Presets.EpicGames, todayAt), doc)
    ensures !PresetMatches(Presets.Preset(Presets.Steam, todayAt), doc)
  {
    assert Presets.FreeGames != "";
  }

  /** At most one store preset can match the seeding lookup. */
  lemma AtMostOneStoreMatches(doc: EmbedData, todayAt: int -> string)
    requires |doc.embeds| > 0
    ensures !(PresetMatches(Presets.Preset(Presets.EpicGames, todayAt), doc)
              && PresetMatches(Presets.Preset(Presets.Steam, todayAt), doc))
  {
    Presets.StoreIconsDiffer(todayAt);
  }

  /**
   * V2's seeding rule: the appended embed is a copy of a store preset's embed,
   * restamped "today at" that preset's hour, exactly when there is a first
   * embed and username, avatar and first-embed author icon all equal that
   * preset's; in every other case it is the bare default structure.
   */
  lemma SeedingRule(doc: EmbedData, loaded: Loaded, nowAt: int -> string)
    requires loaded.todayAt(18) != "" && loaded.todayAt(0) != ""
    ensures NewEmbedV2(doc, loaded, nowAt) ==
      if |doc.embeds| > 0 && PresetMatches(Presets.Preset(Presets.EpicGames, loaded.todayAt), doc) then
        Presets.StoreEmbed("Epic Games Store", Presets.EpicIcon, nowAt(18))
      else if |doc.embeds| > 0 && PresetMatches(Presets.Preset(Presets.Steam, loaded.todayAt), doc) then
        Presets.StoreEmbed("Steam", Presets.SteamIcon, nowAt(0))
      else BareEmbed
  {
    var t := loaded.todayAt;
    if |doc.embeds| > 0 {
      var d, e, s := Presets.Preset(Presets.Default, t), Presets.Preset(Presets.EpicGames, t), Presets.Preset(Presets.Steam, t);
      AtMostOneStoreMatches(doc, t);
      assert FindPreset(doc, t, 3) == None;
      if PresetMatches(d, doc) {
        DefaultExcludesStores(doc, t);
        assert FindPreset(doc, t, 0) == Some(Presets.Default);
      } else if PresetMatches(e, doc) {
        assert FindPreset(doc, t, 0) == Some(Presets.EpicGames);
      } else if PresetMatches(s, doc) {
        assert FindPreset(doc, t, 1) == Some(Presets.Steam);
      } else {
        assert FindPreset(doc, t, 2) == None;
      }
    }
  }

  /** The embed the V2 `addEmbed` appends is within every per-embed limit. */
  lemma NewEmbedV2WithinLimits(doc: EmbedData, loaded: Loaded, nowAt: int -> string)
    requires loaded.todayAt(18) != "" && loaded.todayAt(0) != ""
    ensures EmbedWithinLimits(NewEmbedV2(doc, loaded, nowAt))
  {
    SeedingRule(doc, loaded, nowAt);
    Presets.StoreEmbedWithinLimits("Epic Games Store", Presets.EpicIcon, nowAt(18));
    Presets.StoreEmbedWithinLimits("Steam", Presets.SteamIcon, nowAt(0));
  }

  /** `addEmbed` keeps a document within its limits (it never measures the new embed: the seeds already fit). */
  lemma AddEmbedPreservesLimits(v: Variant, doc: EmbedData, loaded: Loaded, nowAt: int -> string)
    requires loaded.todayAt(18) != "" && loaded.todayAt(0) != ""
    requires WithinLimits(doc)
    ensures var r := AddEmbed(v, doc, loaded, nowAt); r.Committed? ==> WithinLimits(r.doc)
  {
    var r := AddEmbed(v, doc, loaded, nowAt);
    if r.Committed? {
      if v == V2 {
        NewEmbedV2WithinLimits(doc, loaded, nowAt);
      } else {
        Presets.StoreEmbedWithinLimits("Epic Games Store", Presets.EpicIcon, loaded.instant);
      }
      assert forall k :: 0 <= k < |doc.embeds| ==> r.doc.embeds[k] == doc.embeds[k];
    }
  }

  /**
   * `updateEmbed` keeps a document within its limits for every value the
   * editor can send (a fields array of at most 25 rows).
   */
  lemma UpdateEmbedPreservesLimits(v: Variant, doc: EmbedData, i: nat, u: EmbedUpdate)
    requires WithinLimits(doc)
    requires u.SetFields? ==> |u.fields| <= FieldsLimit
    ensures var r := UpdateEmbed(v, doc, i, u); r.Committed? ==> WithinLimits(r.doc)
  {
    var r := UpdateEmbed(v, doc, i, u);
    if r.Committed? && i < |doc.embeds| {
      var e := r.doc.embeds[i];
      assert e == Assign(doc.embeds[i], u);
      assert EmbedWithinLimits(doc.embeds[i]);
      assert EmbedWithinLimits(e);
    }
  }

  lemma RemoveEmbedPreservesLimits(doc: EmbedData, i: nat)
    requires WithinLimits(doc)
    ensures WithinLimits(RemoveEmbed(doc, i))
  {
    RemoveEmbedSpec(doc, i);
  }

  /** A committed V2 update of an embed that exists is exactly the spread of the value into that embed. */
  lemma UpdateEmbedCommitsSpread(doc: EmbedData, i: nat, u: EmbedUpdate)
    requires i < |doc.embeds|
    requires !AuthorTooLong(u) && !FooterTooLong(u)
    requires CharCount(Assign(doc.embeds[i], u)) <= TotalCharsLimit
    ensures UpdateEmbed(V2, doc, i, u) == Committed(doc.(embeds := doc.embeds[i := Assign(doc.embeds[i], u)]))
  {
  }

  /** An index past the end never changes the document, whatever the outcome. */
  lemma UpdateMissingEmbed(v: Variant, doc: EmbedData, i: nat, u: EmbedUpdate)
    requires i >= |doc.embeds|
    ensures After(doc, UpdateEmbed(v, doc, i, u)) == doc
  {
    var r := UpdateEmbed(v, doc, i, u);
    if r.Committed? {
      assert r.doc.embeds == doc.embeds;
    }
  }

  // ---- field level -------------------------------------------------------------

  /** Appending the empty field never changes the character budget. */
  lemma EmptyFieldIsFree(fields: seq<Field>)
    ensures FieldChars(fields + [EmptyField]) == FieldChars(fields)
  {
    assert (fields + [EmptyField])[..|fields|] == fields;
  }

  /**
   * On an embed within the budget with fewer than 25 fields, `addField`
   * commits exactly one empty inline field after the existing ones and nothing else.
   */
  lemma AddFieldAppends(doc: EmbedData, ei: nat)
    requires ei < |doc.embeds|
    requires |doc.embeds[ei].fields| < FieldsLimit
    requires CharCount(doc.embeds[ei]) <= TotalCharsLimit
    ensures var r := AddField(doc, ei);
      && r.Committed?
      && r.doc.embeds == doc.embeds[ei := doc.embeds[ei].(fields := doc.embeds[ei].fields + [Field("", "", true)])]
      && r.doc.(embeds := doc.embeds) == doc
  {
    EmptyFieldIsFree(doc.embeds[ei].fields);
  }

  /** The field edits keep a document within its limits. */
  lemma AddFieldPreservesLimits(doc: EmbedData, ei: nat)
    requires ei < |doc.embeds| && WithinLimits(doc)
    ensures var r := AddField(doc, ei); r.Committed? ==> WithinLimits(r.doc)
  {
    if |doc.embeds[ei].fields| < FieldsLimit {
      UpdateEmbedPreservesLimits(V2, doc, ei, SetFields(doc.embeds[ei].fields + [EmptyField]));
    }
  }

  /**
   * `updateField(fi, p)` merges p into field fi alone; every other field and
   * every other embed is untouched, and a field index past the end leaves
   * the fields as they were. It commits exactly when the merged embed fits the budget.
   */
  lemma UpdateFieldSpec(doc: EmbedData, ei: nat, fi: nat, p: FieldPatch)
    requires ei < |doc.embeds|
    ensures var r := UpdateField(doc, ei, fi, p); var fs := doc.embeds[ei].fields;
      && (r.Committed? <==> CharCount(doc.embeds[ei].(fields := MergeAt(fs, fi, p))) <= TotalCharsLimit)
      && (r.Committed? ==>
        && |r.doc.embeds| == |doc.embeds|
        && (forall k :: 0 <= k < |doc.embeds| && k != ei ==> r.doc.embeds[k] == doc.embeds[k])
        && |r.doc.embeds[ei].fields| == |fs|
        && (forall k :: 0 <= k < |fs| ==> r.doc.embeds[ei].fields[k] == (if k == fi then Merge(fs[k], p) else fs[k]))
        && (fi >= |fs| ==> r.doc == doc))
  {
    var r := UpdateField(doc, ei, fi, p);
    var fs := doc.embeds[ei].fields;
    if r.Committed? && fi >= |fs| {
      assert MergeAt(fs, fi, p) == fs;
      assert r.doc.embeds[ei] == doc.embeds[ei];
      assert r.doc.embeds == doc.embeds;
    }
  }

  lemma UpdateFieldPreservesLimits(doc: EmbedData, ei: nat, fi: nat, p: FieldPatch)
    requires ei < |doc.embeds| && WithinLimits(doc)
    ensures var r := UpdateField(doc, ei, fi, p); r.Committed? ==> WithinLimits(r.doc)
  {
    assert EmbedWithinLimits(doc.embeds[ei]);
    UpdateEmbedPreservesLimits(V2, doc, ei, SetFields(MergeAt(doc.embeds[ei].fields, fi, p)));
  }

  /**
   * `removeField(fi)` on an embed within the budget always commits, deleting
   * exactly field fi and keeping the order of the rest; an index past the end
   * changes nothing.
   */
  lemma RemoveFieldSpec(doc: EmbedData, ei: nat, fi: nat)
    requires ei < |doc.embeds|
    requires CharCount(doc.embeds[ei]) <= TotalCharsLimit
    ensures var r := RemoveField(doc, ei, fi); var fs := doc.embeds[ei].fields;
      && r.Committed?
      && r.doc.embeds == doc.embeds[ei := doc.embeds[ei].(fields := if fi < |fs| then fs[..fi] + fs[fi + 1..] else fs)]
      && r.doc.(embeds := doc.embeds) == doc
  {
    var fs := doc.embeds[ei].fields;
    Lists.RemoveIndexSlices(fs, fi);
    if fi < |fs| {
      FieldCharsRemove(fs, fi);
    }
  }

  lemma RemoveFieldPreservesLimits(doc: EmbedData, ei: nat, fi: nat)
    requires ei < |doc.embeds| && WithinLimits(doc)
    ensures var r := RemoveField(doc, ei, fi); r.Committed? ==> WithinLimits(r.doc)
  {
    assert EmbedWithinLimits(doc.embeds[ei]);
    Lists.RemoveIndexSpec(doc.embeds[ei].fields, fi);
    UpdateEmbedPreservesLimits(V2, doc, ei, SetFields(Lists.RemoveIndex(doc.embeds[ei].fields, fi)));
  }

  // ---- sub-object inputs ---------------------------------------------------------

  /**
   * The author inputs: the guard measures the spread author, so the name input
   * trips it with a value over 256 characters, and the URL and icon inputs
   * trip it when the name already there is over 256; a commit spreads the new author in.
   */
  lemma AuthorEditSpec(doc: EmbedData, ei: nat, key: AuthorKey, value: string)
    requires ei < |doc.embeds|
    ensures var r := UpdateEmbed(V2, doc, ei, AuthorEdit(doc.embeds[ei], key, value));
      && (r == Rejected(AuthorNameTooLong) <==>
          if key == Name then |value| > AuthorNameLimit else AuthorNameLength(doc.embeds[ei]) > AuthorNameLimit)
      && (r.Committed? ==> r.doc.embeds[ei] == doc.embeds[ei].(author := Some(AuthorEdit(doc.embeds[ei], key, value).author)))
  {
  }

  /** The footer input: rejected exactly when the text is over 2048 characters; a commit sets the footer to `{ text }`. */
  lemma FooterEditSpec(doc: EmbedData, ei: nat, text: string)
    requires ei < |doc.embeds|
    ensures var r := UpdateEmbed(V2, doc, ei, FooterEdit(text));
      && (r == Rejected(FooterTextTooLong) <==> |text| > FooterTextLimit)
      && (r.Committed? ==> r.doc.embeds[ei] == doc.embeds[ei].(footer := Some(Footer(Some(text)))))
  {
  }

  /**
   * The image input: the URL is not measured, so on an embed within the budget
   * the edit always commits, setting the image to `{ url }`.
   */
  lemma ImageEditSpec(doc: EmbedData, ei: nat, url: string)
    requires ei < |doc.embeds|
    ensures var r := UpdateEmbed(V2, doc, ei, ImageEdit(url));
      && (r.Committed? <==> CharCount(doc.embeds[ei]) <= TotalCharsLimit)
      && (r.Committed? ==> r.doc.embeds[ei] == doc.embeds[ei].(image := Some(Image(url))))
  {
    assert CharCount(Prospective(doc, ei, ImageEdit(url))) == CharCount(doc.embeds[ei]);
  }

  // ---- bootstrap -----------------------------------------------------------------

  /** A non-empty byte sequence never encodes to the empty token. */
  lemma TokenNotEmpty(f: Codec.Foreign, d: EmbedData)
    requires Codec.Serialize(f, d) != []
    ensures Codec.EncodeEmbedData(f, d) != ""
  {
    Codec.UrlSafeShape(Codec.Serialize(f, d));
    Codec.RemapChars(Base64.EncodeBody(Codec.Serialize(f, d)));
  }

  /**
   * A published document comes back on reload: V1 accepts any decoded
   * document, V2 only one with at least one embed.
   */
  lemma ReloadRestores(v: Variant, f: Codec.Foreign, d: EmbedData, loaded: Loaded)
    requires Codec.RoundTripsAt(f, d) && Codec.Serialize(f, d) != []
    requires v == V2 ==> |d.embeds| > 0
    ensures InitialDocument(v, f, Some(Codec.EncodeEmbedData(f, d)), loaded) == d
  {
    TokenNotEmpty(f, d);
    Codec.RoundTrip(f, d);
  }

  /** In V2 a published document without embeds does not survive a reload: the empty default replaces it. */
  lemma ReloadDropsEmptyV2(f: Codec.Foreign, d: EmbedData, loaded: Loaded)
    requires Codec.RoundTripsAt(f, d) && Codec.Serialize(f, d) != []
    requires d.embeds == []
    ensures InitialDocument(V2, f, Some(Codec.EncodeEmbedData(f, d)), loaded) == EmbedData("", [], "", "", None)
  {
    TokenNotEmpty(f, d);
    Codec.RoundTrip(f, d);
  }

  /** With no usable query parameter each variant starts from its own fallback. */
  lemma FallbackDocuments(f: Codec.Foreign, loaded: Loaded)
    ensures InitialDocument(V2, f, None, loaded) == EmbedData("", [], "", "", None)
    ensures InitialDocument(V2, f, Some(""), loaded) == EmbedData("", [], "", "", None)
    ensures var d := InitialDocument(V1, f, None, loaded);
      && d.content == "<@&847939354978811924>" && d.username == "Free Games"
      && d.avatarUrl == "https://wolfey.s-ul.eu/5nV1WPyv"
      && d.embeds == [DefaultEmbedV1(loaded)] && d.attachments == Some([])
  {
  }
}
