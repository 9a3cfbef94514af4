/**
 * The field-level edits and sub-object update shapes of
 * src/components/Builder/EmbedEditor.tsx. Every edit builds a new value and
 * hands it to `onUpdate(key, value)`, which is V2's `updateEmbed` for the
 * editor's own embed index.
 */
module Editor {
  import opened Wrappers
  import opened Document
  import opened Engine
  import Lists

  /** The row `addField` appends. */
  const EmptyField: Field := Field("", "", true)

  /** A `Partial<Field>`: the keys it holds overwrite the field's. */
  datatype FieldPatch = FieldPatch(name: Option<string>, value: Option<string>, inline: Option<bool>)

  /** `{ ...f, ...p }` */
  function Merge(f: Field, p: FieldPatch): (r: Field)
    ensures r.name == p.name.GetOr(f.name)
    ensures r.value == p.value.GetOr(f.value)
    ensures r.inline == p.inline.GetOr(f.inline)
  {
    Field(p.name.GetOr(f.name), p.value.GetOr(f.value), p.inline.GetOr(f.inline))
  }

  /** `fields.map((f, i) => i === fi ? { ...f, ...p } : f)` */
  function MergeAt(fields: seq<Field>, fi: nat, p: FieldPatch): seq<Field> {
    seq(|fields|, k requires 0 <= k < |fields| => if k == fi then Merge(fields[k], p) else fields[k])
  }

  /** `addField()` on the editor of embed ei. */
  function AddField(doc: EmbedData, ei: nat): (r: Outcome)
    requires ei < |doc.embeds|
    ensures |doc.embeds[ei].fields| >= FieldsLimit ==> r == Rejected(MaxFields)
    ensures |doc.embeds[ei].fields| < FieldsLimit ==>
      r == UpdateEmbed(V2, doc, ei, SetFields(doc.embeds[ei].fields + [EmptyField]))
  {
    var fields := doc.embeds[ei].fields;
    if |fields| >= FieldsLimit then Rejected(MaxFields)
    else UpdateEmbed(V2, doc, ei, SetFields(fields + [EmptyField]))
  }

  /** `updateField(fi, p)` on the editor of embed ei. */
  function UpdateField(doc: EmbedData, ei: nat, fi: nat, p: FieldPatch): Outcome
    requires ei < |doc.embeds|
  {
    UpdateEmbed(V2, doc, ei, SetFields(MergeAt(doc.embeds[ei].fields, fi, p)))
  }

  /** `removeField(fi)` on the editor of embed ei. */
  function RemoveField(doc: EmbedData, ei: nat, fi: nat): Outcome
    requires ei < |doc.embeds|
  {
    UpdateEmbed(V2, doc, ei, SetFields(Lists.RemoveIndex(doc.embeds[ei].fields, fi)))
  }

  datatype AuthorKey = Name | Url | IconUrl

  /** The author inputs: `{ ...embed.author, [key]: value }`, an absent author spreading as `{}`. */
  function AuthorEdit(e: Embed, key: AuthorKey, value: string): (u: EmbedUpdate)
    ensures u.SetAuthor?
    ensures var prior := e.author.GetOr(Author(None, None, None));
      && u.author.name == (if key == Name then Some(value) else prior.name)
      && u.author.url == (if key == Url then Some(value) else prior.url)
      && u.author.iconUrl == (if key == IconUrl then Some(value) else prior.iconUrl)
  {
    var a := e.author.GetOr(Author(None, None, None));
    SetAuthor(match key
      case Name => a.(name := Some(value))
      case Url => a.(url := Some(value))
      case IconUrl => a.(iconUrl := Some(value)))
  }

  /** The footer input replaces the footer with `{ text }` alone. */
  function FooterEdit(text: string): EmbedUpdate {
    SetFooter(Footer(Some(text)))
  }

  /** The image input replaces the image with `{ url }` alone. */
  function ImageEdit(url: string): EmbedUpdate {
    SetImage(Image(url))
  }
}
