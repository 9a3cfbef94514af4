/**
 * The document schema of src/app/types.d.ts and the limit constants the
 * builder enforces. JavaScript strings are modelled as `seq<char>`; an
 * optional key (`author?`, `name?`, ...) is an `Option`.
 */
module Document {
  import opened Wrappers

  /** One name/value row of an embed card; every key is always present. */
  datatype Field = Field(name: string, value: string, inline: bool)

  /** `author?: { name?, url?, icon_url? }` */
  datatype Author = Author(name: Option<string>, url: Option<string>, iconUrl: Option<string>)

  /** `footer?: { text? }` */
  datatype Footer = Footer(text: Option<string>)

  /** `image?: { url }`: when an image is present it always has a url. */
  datatype Image = Image(url: string)

  /** One card. `color` and `fields` are always present, the rest is optional. */
  datatype Embed = Embed(
    color: int,
    fields: seq<Field>,
    author: Option<Author>,
    footer: Option<Footer>,
    timestamp: Option<string>,
    image: Option<Image>)

  /** An element of `attachments: any[]`, kept as its JSON text. */
  datatype Attachment = Attachment(json: string)

  /**
   * The whole message. `attachments` is declared by the type but the presets
   * omit it, so it is optional here.
   */
  datatype EmbedData = EmbedData(
    content: string,
    embeds: seq<Embed>,
    username: string,
    avatarUrl: string,
    attachments: Option<seq<Attachment>>)

  // The limits the builder's messages quote (the limits module itself is not
  // part of this model).
  const EmbedsLimit: nat := 10
  const FieldsLimit: nat := 25
  const AuthorNameLimit: nat := 256
  const FooterTextLimit: nat := 2048
  const TotalCharsLimit: nat := 6000

  /** The length of `author.name`, 0 when the author or the name is absent. */
  function AuthorNameLength(e: Embed): nat {
    if e.author.Some? && e.author.value.name.Some? then |e.author.value.name.value| else 0
  }

  /** The length of `footer.text`, 0 when the footer or the text is absent. */
  function FooterTextLength(e: Embed): nat {
    if e.footer.Some? && e.footer.value.text.Some? then |e.footer.value.text.value| else 0
  }

  /** The sum of the name and value lengths of `fields`, accumulated left to right. */
  function FieldChars(fields: seq<Field>): nat {
    if fields == [] then 0
    else FieldChars(fields[..|fields| - 1]) + |fields[|fields| - 1].name| + |fields[|fields| - 1].value|
  }

  /** The character budget measure of one embed. */
  function CharCount(e: Embed): nat {
    AuthorNameLength(e) + FooterTextLength(e) + FieldChars(e.fields)
  }

  /** An embed within every per-embed limit. */
  predicate EmbedWithinLimits(e: Embed) {
    && |e.fields| <= FieldsLimit
    && AuthorNameLength(e) <= AuthorNameLimit
    && FooterTextLength(e) <= FooterTextLimit
    && CharCount(e) <= TotalCharsLimit
  }

  /** A document within every limit the builder enforces. */
  predicate WithinLimits(d: EmbedData) {
    && |d.embeds| <= EmbedsLimit
    && forall i :: 0 <= i < |d.embeds| ==> EmbedWithinLimits(d.embeds[i])
  }

  /** FieldChars distributes over concatenation. */
  lemma {:induction false} FieldCharsAppend(a: seq<Field>, b: seq<Field>)
    ensures FieldChars(a + b) == FieldChars(a) + FieldChars(b)
    decreases |b|
  {
    if b == [] {
      assert a + b == a;
    } else {
      assert (a + b)[..|a + b| - 1] == a + b[..|b| - 1];
      FieldCharsAppend(a, b[..|b| - 1]);
    }
  }

  /** Removing the field at position i lowers the measure by exactly that field's size. */
  lemma FieldCharsRemove(fields: seq<Field>, i: nat)
    requires i < |fields|
    ensures FieldChars(fields[..i] + fields[i + 1..]) + |fields[i].name| + |fields[i].value| == FieldChars(fields)
  {
    FieldCharsAppend(fields[..i], fields[i + 1..]);
    FieldCharsAppend(fields[..i], [fields[i]]);
    FieldCharsAppend(fields[..i] + [fields[i]], fields[i + 1..]);
    assert fields[..i] + [fields[i]] + fields[i + 1..] == fields;
    assert FieldChars([fields[i]]) == |fields[i].name| + |fields[i].value| by {
      assert [fields[i]][..0] == [];
    }
  }
}
