/**
 * `calculateEmbedCharCount` as the handlers run it: a running total over
 * author name, footer text and a left-to-right pass over the fields.
 */
module Validator {
  import opened Wrappers
  import opened Document

  /** The running count equals the character budget measure `CharCount`. */
  method CalculateEmbedCharCount(e: Embed) returns (count: nat)
    ensures count == CharCount(e)
  {
    count := 0;
    if e.author.Some? && e.author.value.name.Some? {
      count := count + |e.author.value.name.value|;
    }
    if e.footer.Some? && e.footer.value.text.Some? {
      count := count + |e.footer.value.text.value|;
    }
    var i := 0;
    while i < |e.fields|
      invariant 0 <= i <= |e.fields|
      invariant count == AuthorNameLength(e) + FooterTextLength(e) + FieldChars(e.fields[..i])
    {
      assert e.fields[..i + 1][..i] == e.fields[..i];
      count := count + |e.fields[i].name| + |e.fields[i].value|;
      i := i + 1;
    }
    assert e.fields[..i] == e.fields;
  }
}
