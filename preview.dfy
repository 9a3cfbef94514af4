/**
 * The pure string work of both previews (src/components/Builder/EmbedPreview.tsx
 * and src/components/Builder_v1/EmbedPreview.tsx): splitting the message
 * content around role mentions, rewriting a field value into markup, and the
 * tests that decide what a card shows.
 */
module Preview {
  import opened Wrappers
  import opened Document
  import Engine
  import Color
  import Presets

  // ---- role mentions -----------------------------------------------------------------

  /** `\d`: an ASCII decimal digit. */
  predicate IsDigit(c: char) {
    '0' <= c <= '9'
  }

  /** The length of the run of digits in t starting at q. */
  function DigitRun(t: string, q: nat): (r: nat)
    requires q <= |t|
    ensures q + r <= |t|
    ensures forall k :: q <= k < q + r ==> IsDigit(t[k])
    ensures q + r < |t| ==> !IsDigit(t[q + r])
    decreases |t| - q
  {
    if q < |t| && IsDigit(t[q]) then 1 + DigitRun(t, q + 1) else 0
  }

  /** m matches `^<@&\d+>$`. */
  predicate IsMention(m: string) {
    && |m| >= 5
    && m[..3] == "<@&"
    && (forall k :: 3 <= k < |m| - 1 ==> IsDigit(m[k]))
    && m[|m| - 1] == '>'
  }

  /** The length of the match of `<@&\d+>` at the start of t, 0 when there is none. */
  function MentionLength(t: string): (n: nat)
    ensures n <= |t|
    ensures n > 0 ==> IsMention(t[..n])
  {
    if |t| >= 3 && t[..3] == "<@&" then
      var r := DigitRun(t, 3);
      if r > 0 && 3 + r < |t| && t[3 + r] == '>' then
        assert t[..4 + r][..3] == t[..3];
        4 + r
      else 0
    else 0
  }

  /** A mention at the start of t is the match found there, whatever follows it. */
  lemma MentionIsMatch(t: string, n: nat)
    requires n <= |t| && IsMention(t[..n])
    ensures MentionLength(t) == n
  {
    assert t[..3] == t[..n][..3];
    var r := DigitRun(t, 3);
    assert forall k :: 3 <= k < n - 1 ==> IsDigit(t[k]) by {
      forall k | 3 <= k < n - 1 ensures IsDigit(t[k]) {
        assert t[k] == t[..n][k];
      }
    }
    assert t[n - 1] == t[..n][n - 1];
  }

  /** No match of `<@&\d+>` starts anywhere in t. */
  predicate NoMention(t: string) {
    forall j :: 0 <= j < |t| ==> MentionLength(t[j..]) == 0
  }

  /**
   * `content.split(/(<@&\d+>)/)` from position i on, when no match starts
   * before i: the text before the leftmost match, the match itself, then the
   * split of the rest.
   */
  function SplitFrom(s: string, i: nat): seq<string>
    requires i <= |s|
    decreases |s|, |s| - i
  {
    if i == |s| then [s]
    else
      var n := MentionLength(s[i..]);
      if n > 0 then [s[..i], s[i..i + n]] + SplitFrom(s[i + n..], 0)
      else SplitFrom(s, i + 1)
  }

  function SplitMentions(content: string): seq<string> {
    SplitFrom(content, 0)
  }

  function Concat(parts: seq<string>): string {
    if parts == [] then [] else parts[0] + Concat(parts[1..])
  }

  /** Text that precedes every match of t is free of matches itself. */
  lemma PrefixHasNoMention(s: string, i: nat)
    requires i <= |s|
    requires forall j :: 0 <= j < i ==> MentionLength(s[j..]) == 0
    ensures NoMention(s[..i])
  {
    forall j | 0 <= j < i ensures MentionLength(s[..i][j..]) == 0 {
      var m := MentionLength(s[..i][j..]);
      if m > 0 {
        assert s[..i][j..][..m] == s[j..][..m];
        MentionIsMatch(s[j..], m);
      }
    }
  }

  lemma ConcatPair(a: string, b: string, tail: seq<string>)
    ensures Concat([a, b] + tail) == a + b + Concat(tail)
  {
    var parts := [a, b] + tail;
    assert parts[1..][1..] == tail;
  }

  /** What holds of the parts of a split. */
  predicate Alternates(parts: seq<string>) {
    && |parts| % 2 == 1
    && (forall k :: 0 <= k < |parts| && k % 2 == 1 ==> IsMention(parts[k]))
    && (forall k :: 0 <= k < |parts| && k % 2 == 0 ==> NoMention(parts[k]))
  }

  lemma AlternatesCons(a: string, b: string, tail: seq<string>)
    requires NoMention(a) && IsMention(b) && Alternates(tail)
    ensures Alternates([a, b] + tail)
  {
    var parts := [a, b] + tail;
    forall k | 2 <= k < |parts| ensures parts[k] == tail[k - 2] {
    }
  }

  lemma {:induction false} SplitFromSpec(s: string, i: nat)
    requires i <= |s|
    requires forall j :: 0 <= j < i ==> MentionLength(s[j..]) == 0
    ensures Concat(SplitFrom(s, i)) == s
    ensures Alternates(SplitFrom(s, i))
    decreases |s|, |s| - i
  {
    if i == |s| {
      SplitEnd(s);
    } else if MentionLength(s[i..]) > 0 {
      var n := MentionLength(s[i..]);
      SplitFromSpec(s[i + n..], 0);
      SplitMatch(s, i, n);
    } else {
      SplitFromSpec(s, i + 1);
    }
  }

  /** A split that reaches the end unmatched is the whole text, which holds no match. */
  lemma SplitEnd(s: string)
    requires forall j :: 0 <= j < |s| ==> MentionLength(s[j..]) == 0
    ensures Concat([s]) == s && Alternates([s])
  {
    assert [s][1..] == [];
    assert s[..|s|] == s;
    PrefixHasNoMention(s, |s|);
  }

  /** The step at a match: the text before it, the match, then the split of the rest. */
  lemma SplitMatch(s: string, i: nat, n: nat)
    requires i < |s| && n > 0 && n == MentionLength(s[i..])
    requires forall j :: 0 <= j < i ==> MentionLength(s[j..]) == 0
    requires Concat(SplitFrom(s[i + n..], 0)) == s[i + n..]
    requires Alternates(SplitFrom(s[i + n..], 0))
    ensures Concat(SplitFrom(s, i)) == s
    ensures Alternates(SplitFrom(s, i))
  {
    var rest := s[i + n..];
    SplitAtMatch(s, i, n);
    SplitMatchConcat(s, i, n, SplitFrom(rest, 0));
    SplitMatchAlternates(s, i, n, SplitFrom(rest, 0));
  }

  lemma SplitAtMatch(s: string, i: nat, n: nat)
    requires i < |s| && n > 0 && n == MentionLength(s[i..])
    ensures SplitFrom(s, i) == [s[..i], s[i..i + n]] + SplitFrom(s[i + n..], 0)
  {
  }

  lemma SplitMatchConcat(s: string, i: nat, n: nat, tail: seq<string>)
    requires i + n <= |s| && Concat(tail) == s[i + n..]
    ensures Concat([s[..i], s[i..i + n]] + tail) == s
  {
    ConcatPair(s[..i], s[i..i + n], tail);
    assert s[..i] + s[i..i + n] + s[i + n..] == s;
  }

  lemma SplitMatchAlternates(s: string, i: nat, n: nat, tail: seq<string>)
    requires i < |s| && n > 0 && n == MentionLength(s[i..])
    requires forall j :: 0 <= j < i ==> MentionLength(s[j..]) == 0
    requires Alternates(tail)
    ensures Alternates([s[..i], s[i..i + n]] + tail)
  {
    assert s[i..][..n] == s[i..i + n];
    PrefixHasNoMention(s, i);
    AlternatesCons(s[..i], s[i..i + n], tail);
  }

  /**
   * The content line: the parts concatenate back to the content, there is an
   * odd number of them, the parts at odd positions are the mentions and no
   * mention occurs inside the others.
   */
  lemma SplitMentionsSpec(content: string)
    ensures var parts := SplitMentions(content);
      && Concat(parts) == content
      && |parts| % 2 == 1
      && (forall k :: 0 <= k < |parts| && k % 2 == 1 ==> IsMention(parts[k]))
      && (forall k :: 0 <= k < |parts| && k % 2 == 0 ==> NoMention(parts[k]))
  {
    SplitFromSpec(content, 0);
  }

  /** How a part of the content line is shown: a role chip or the text itself. */
  datatype Shown = RoleChip | Text(text: string)

  function ShowPart(part: string): Shown {
    if IsMention(part) then RoleChip else Text(part)
  }

  /** A part of the content line is shown as `@role` exactly when it sits at an odd position. */
  lemma RoleChipsAtOddPositions(content: string, k: nat)
    requires k < |SplitMentions(content)|
    ensures ShowPart(SplitMentions(content)[k]) == RoleChip <==> k % 2 == 1
    ensures k % 2 == 0 ==> ShowPart(SplitMentions(content)[k]) == Text(SplitMentions(content)[k])
  {
    SplitMentionsSpec(content);
    var part := SplitMentions(content)[k];
    if k % 2 == 0 && IsMention(part) {
      assert part[0..] == part && part[..|part|] == part;
      MentionIsMatch(part, |part|);
    }
  }

  // ---- field value markup --------------------------------------------------------------

  /** `.value.replace(/\n/g, '<br/>')` */
  function ReplaceNewlines(s: string): (r: string)
    ensures '\n' !in r
  {
    if s == [] then []
    else (if s[0] == '\n' then "<br/>" else [s[0]]) + ReplaceNewlines(s[1..])
  }

  /** The first position at or after k holding c, |t| when there is none. */
  function FirstIndex(t: string, c: char, k: nat): (r: nat)
    requires k <= |t|
    ensures k <= r <= |t|
    ensures forall j :: k <= j < r ==> t[j] != c
    ensures r < |t| ==> t[r] == c
    decreases |t| - k
  {
    if k == |t| || t[k] == c then k else FirstIndex(t, c, k + 1)
  }

  datatype Link = Link(text: string, url: string, consumed: nat)

  /**
   * The match of `\[([^\]]+)\]\(([^)]+)\)` at the start of t: the label runs
   * to the first `]`, which `(` must follow, and the URL to the next `)`; each
   * must hold at least one character.
   */
  function LinkAt(t: string): (r: Option<Link>)
    ensures r.Some? ==> 0 < r.value.consumed <= |t|
  {
    if |t| > 0 && t[0] == '[' then
      var q := FirstIndex(t, ']', 1);
      if q > 1 && q + 1 < |t| && t[q + 1] == '(' then
        var e := FirstIndex(t, ')', q + 2);
        if e > q + 2 && e < |t| then Some(Link(t[1..q], t[q + 2..e], e + 1)) else None
      else None
    else None
  }

  /** `'<a href="$2" class="…">$1</a>'` */
  function Anchor(text: string, url: string): (r: string)
    ensures '\n' !in text && '\n' !in url ==> '\n' !in r
  {
    var opening, closing := "<a href=\"", "</a>";
    var middle := "\" class=\"text-[#4e80eb] " + "dark:text-[#00A8FC] " + "hover:underline\">";
    opening + url + middle + text + closing
  }

  lemma NoNewlineSlice(t: string, a: nat, b: nat)
    requires a <= b <= |t|
    ensures '\n' !in t ==> '\n' !in t[a..b]
  {
    if '\n' in t[a..b] {
      var j :| 0 <= j < b - a && t[a..b][j] == '\n';
      assert t[a + j] == '\n';
    }
  }

  /** The parts of a link match, and what follows it, hold no newline when t holds none. */
  lemma NoNewlineSlices(t: string, consumed: nat)
    requires LinkAt(t).Some? && LinkAt(t).value.consumed == consumed
    ensures '\n' !in t ==> '\n' !in LinkAt(t).value.text && '\n' !in LinkAt(t).value.url && '\n' !in t[consumed..]
  {
    var q := FirstIndex(t, ']', 1);
    var e := FirstIndex(t, ')', q + 2);
    NoNewlineSlice(t, 1, q);
    NoNewlineSlice(t, q + 2, e);
    NoNewlineSlice(t, consumed, |t|);
    assert t[consumed..] == t[consumed..|t|];
  }

  /** The link rule, applied left to right to every non-overlapping match. */
  function ReplaceLinks(t: string): (r: string)
    ensures '\n' !in t ==> '\n' !in r
    decreases |t|
  {
    if t == [] then []
    else match LinkAt(t)
      case Some(l) =>
        NoNewlineSlices(t, l.consumed);
        Anchor(l.text, l.url) + ReplaceLinks(t[l.consumed..])
      case None =>
        NoNewlineSlice(t, 1, |t|);
        assert t[1..|t|] == t[1..];
        [t[0]] + ReplaceLinks(t[1..])
  }

  /** A line terminator, which `.` in a JavaScript pattern does not match. */
  predicate IsLineTerminator(c: char) {
    c == '\n' || c == '\r' || c == '\U{2028}' || c == '\U{2029}'
  }

  /** A line terminator sits in t[q..j]. */
  predicate BrokenBefore(t: string, q: nat, j: nat)
    requires j <= |t|
  {
    exists k :: q <= k < j && IsLineTerminator(t[k])
  }

  /**
   * Where `(.*?)dd` starting at q finds its closing pair: the first pair at or
   * after q, provided no line terminator comes before it; None when every
   * pair has a line terminator before it.
   */
  function CloseAt(t: string, d: char, q: nat): (r: Option<nat>)
    requires q <= |t|
    ensures r.Some? ==> q <= r.value && r.value + 2 <= |t| && t[r.value] == d && t[r.value + 1] == d
    ensures r.Some? ==> forall j :: q <= j < r.value ==> !IsLineTerminator(t[j])
    ensures r.Some? ==> forall j :: q <= j < r.value ==> !(t[j] == d && t[j + 1] == d)
    ensures r.None? ==> forall j :: q <= j && j + 1 < |t| && t[j] == d && t[j + 1] == d ==> BrokenBefore(t, q, j)
    decreases |t| - q
  {
    if q + 1 >= |t| then None
    else if t[q] == d && t[q + 1] == d then Some(q)
    else if IsLineTerminator(t[q]) then None
    else CloseAt(t, d, q + 1)
  }

  /** `.replace(/dd(.*?)dd/g, open + '$1' + close)` for the doubled delimiter d. */
  function ReplacePairs(t: string, d: char, open: string, close: string): (r: string)
    ensures '\n' !in t && '\n' !in open && '\n' !in close ==> '\n' !in r
    decreases |t|
  {
    if t == [] then []
    else if |t| >= 2 && t[0] == d && t[1] == d && CloseAt(t, d, 2).Some? then
      var q := CloseAt(t, d, 2).value;
      NoNewlineSlice(t, 2, q);
      NoNewlineSlice(t, q + 2, |t|);
      open + t[2..q] + close + ReplacePairs(t[q + 2..], d, open, close)
    else [t[0]] + ReplacePairs(t[1..], d, open, close)
  }

  /** The field value's markup, in the order the preview applies the rules. */
  function RenderValue(value: string): (html: string)
    ensures '\n' !in html
  {
    var withBreaks := ReplaceNewlines(value);
    var withLinks := ReplaceLinks(withBreaks);
    var withBold := ReplacePairs(withLinks, '*', "<strong>", "</strong>");
    ReplacePairs(withBold, '~', "<del>", "</del>")
  }

  /**
   * `[a](b)` with a free of `]`, b free of `)` and both non-empty becomes an
   * anchor, and the rewrite carries on after it.
   */
  lemma LinkRule(a: string, b: string, y: string)
    requires a != [] && ']' !in a && b != [] && ')' !in b
    ensures ReplaceLinks("[" + a + "](" + b + ")" + y) == Anchor(a, b) + ReplaceLinks(y)
  {
    var t := "[" + a + "](" + b + ")" + y;
    var q := |a| + 1;
    assert forall j :: 1 <= j < q ==> t[j] == a[j - 1];
    assert t[q] == ']' && t[q + 1] == '(';
    assert FirstIndex(t, ']', 1) == q by {
      FirstIndexIs(t, ']', 1, q);
    }
    var e := q + 2 + |b|;
    assert forall j :: q + 2 <= j < e ==> t[j] == b[j - q - 2];
    assert FirstIndex(t, ')', q + 2) == e by {
      FirstIndexIs(t, ')', q + 2, e);
    }
    assert t[1..q] == a && t[q + 2..e] == b;
    assert t[e + 1..] == y;
  }

  lemma {:induction false} FirstIndexIs(t: string, c: char, k: nat, r: nat)
    requires k <= r < |t| && t[r] == c
    requires forall j :: k <= j < r ==> t[j] != c
    ensures FirstIndex(t, c, k) == r
    decreases r - k
  {
    if k < r {
      FirstIndexIs(t, c, k + 1, r);
    }
  }

  /** A link with an empty URL part, such as the presets' `[Claim Game]()`, is left as it is. */
  lemma EmptyUrlIsNotALink(a: string)
    requires ']' !in a && '[' !in a && '\n' !in a
    ensures ReplaceLinks("[" + a + "]()") == "[" + a + "]()"
  {
    var t := "[" + a + "]()";
    var q := |a| + 1;
    assert forall j :: 1 <= j < q ==> t[j] == a[j - 1];
    FirstIndexIs(t, ']', 1, q);
    assert t[q + 2] == ')';
    FirstIndexIs(t, ')', q + 2, q + 2);
    assert LinkAt(t) == None;
    PlainText(t[1..]);
    assert [t[0]] + t[1..] == t;
  }

  /** Text with no `[` is untouched by the link rule. */
  lemma {:induction false} PlainText(t: string)
    requires '[' !in t
    ensures ReplaceLinks(t) == t
    decreases |t|
  {
    if t != [] {
      assert t[0] != '[';
      assert LinkAt(t) == None;
      PlainText(t[1..]);
      assert [t[0]] + t[1..] == t;
    }
  }

  /**
   * The shortest-match rule: `ddxdd`, where x holds no line terminator and no
   * pair dd starts inside x, becomes open + x + close, and the rewrite carries
   * on after it.
   */
  lemma PairRule(x: string, y: string, d: char, open: string, close: string)
    requires forall j :: 0 <= j < |x| ==> !IsLineTerminator(x[j])
    requires forall j :: 0 <= j < |x| ==> !(x[j] == d && (x + [d])[j + 1] == d)
    ensures ReplacePairs([d, d] + x + [d, d] + y, d, open, close) == open + x + close + ReplacePairs(y, d, open, close)
  {
    var t := [d, d] + x + [d, d] + y;
    forall j | 2 <= j < 2 + |x|
      ensures !(t[j] == d && t[j + 1] == d) && !IsLineTerminator(t[j])
    {
      assert t[j] == x[j - 2] && t[j + 1] == (x + [d])[j - 1];
    }
    CloseAtIs(t, d, 2, 2 + |x|);
    assert t[2..2 + |x|] == x;
    assert t[2 + |x| + 2..] == y;
  }

  /** Text free of d passes through the pair rule unchanged. */
  lemma {:induction false} PairSkip(x: string, y: string, d: char, open: string, close: string)
    requires d !in x
    ensures ReplacePairs(x + y, d, open, close) == x + ReplacePairs(y, d, open, close)
    decreases |x|
  {
    if x != [] {
      var t := x + y;
      assert x[0] in x;
      assert t[0] == x[0] && t[1..] == x[1..] + y;
      assert ReplacePairs(t, d, open, close) == [x[0]] + ReplacePairs(x[1..] + y, d, open, close);
      PairSkip(x[1..], y, d, open, close);
      assert [x[0]] + x[1..] == x;
    } else {
      assert x + y == y;
    }
  }

  /** Text free of `[` passes through the link rule unchanged. */
  lemma {:induction false} LinkSkip(x: string, y: string)
    requires '[' !in x
    ensures ReplaceLinks(x + y) == x + ReplaceLinks(y)
    decreases |x|
  {
    if x != [] {
      var t := x + y;
      assert x[0] in x;
      assert t[0] == x[0] && t[1..] == x[1..] + y;
      LinkStep(t);
      LinkSkip(x[1..], y);
      assert [x[0]] + x[1..] == x;
    } else {
      assert x + y == y;
    }
  }

  /** A character other than `[` is copied and the rewrite carries on after it. */
  lemma LinkStep(t: string)
    requires t != [] && t[0] != '['
    ensures ReplaceLinks(t) == [t[0]] + ReplaceLinks(t[1..])
  {
    assert LinkAt(t) == None;
  }

  /** The newline rule works piece by piece. */
  lemma {:induction false} NewlinesAppend(x: string, y: string)
    ensures ReplaceNewlines(x + y) == ReplaceNewlines(x) + ReplaceNewlines(y)
    decreases |x|
  {
    if x != [] {
      var piece := if x[0] == '\n' then "<br/>" else [x[0]];
      assert (x + y)[0] == x[0] && (x + y)[1..] == x[1..] + y;
      assert ReplaceNewlines(x + y) == piece + ReplaceNewlines(x[1..] + y);
      NewlinesAppend(x[1..], y);
      assert ReplaceNewlines(x) == piece + ReplaceNewlines(x[1..]);
    } else {
      assert x + y == y;
    }
  }

  /** Text without a newline passes through the newline rule unchanged. */
  lemma {:induction false} NoNewlines(x: string)
    requires '\n' !in x
    ensures ReplaceNewlines(x) == x
    decreases |x|
  {
    if x != [] {
      NoNewlines(x[1..]);
      assert [x[0]] + x[1..] == x;
    }
  }

  /** Plain text for every rule: no newline, `[`, `*`, `~` or other line terminator. */
  predicate Plain(x: string) {
    forall j :: 0 <= j < |x| ==> !IsLineTerminator(x[j]) && x[j] != '[' && x[j] != '*' && x[j] != '~'
  }

  lemma PlainHasNone(x: string)
    requires Plain(x)
    ensures '\n' !in x && '[' !in x && '*' !in x && '~' !in x
  {
  }

  lemma StoreValueBreaks(price: string, word: string, text: string)
    requires Plain(price) && Plain(word) && Plain(text) && ']' !in text
    ensures ReplaceLinks(ReplaceNewlines("~~" + price + "~~ **" + word + "**\n[" + text + "]()"))
      == "~~" + price + "~~ **" + word + "**<br/>[" + text + "]()"
  {
    PlainHasNone(price);
    PlainHasNone(word);
    PlainHasNone(text);
    var head := "~~" + price + "~~ **" + word + "**";
    var link := "[" + text + "]()";
    assert '\n' !in head && '\n' !in link && '[' !in head;
    NewlinesAppend(head + "\n", link);
    NewlinesAppend(head, "\n");
    NoNewlines(head);
    NoNewlines(link);
    assert ReplaceNewlines("\n") == "<br/>";
    LinkSkip(head + "<br/>", link);
    EmptyUrlIsNotALink(text);
    BreaksShape(head, link, price, word, text);
  }

  lemma BreaksShape(head: string, link: string, price: string, word: string, text: string)
    requires head == "~~" + price + "~~ **" + word + "**" && link == "[" + text + "]()"
    ensures "~~" + price + "~~ **" + word + "**\n[" + text + "]()" == (head + "\n") + link
    ensures "~~" + price + "~~ **" + word + "**<br/>[" + text + "]()" == (head + "<br/>") + link
  {
  }

  lemma StoreValueBold(price: string, word: string, text: string)
    requires Plain(price) && Plain(word) && Plain(text)
    ensures ReplacePairs("~~" + price + "~~ **" + word + "**<br/>[" + text + "]()", '*', "<strong>", "</strong>")
      == "~~" + price + "~~ <strong>" + word + "</strong><br/>[" + text + "]()"
  {
    PlainHasNone(price);
    PlainHasNone(word);
    PlainHasNone(text);
    var strike := "~~" + price + "~~ ";
    var after := "<br/>[" + text + "]()";
    assert '*' !in strike && '*' !in after;
    var pair := ['*', '*'] + word + ['*', '*'] + after;
    PairSkip(strike, pair, '*', "<strong>", "</strong>");
    PlainWord(word);
    PairRule(word, after, '*', "<strong>", "</strong>");
    PairSkip(after, [], '*', "<strong>", "</strong>");
    assert after + [] == after;
    BoldShape(strike, after, price, word, text);
  }

  lemma BoldShape(strike: string, after: string, price: string, word: string, text: string)
    requires strike == "~~" + price + "~~ " && after == "<br/>[" + text + "]()"
    ensures "~~" + price + "~~ **" + word + "**<br/>[" + text + "]()" == strike + (['*', '*'] + word + ['*', '*'] + after)
    ensures "~~" + price + "~~ <strong>" + word + "</strong><br/>[" + text + "]()" == strike + ("<strong>" + word + "</strong>" + after)
  {
  }

  lemma StoreValueStrike(price: string, word: string, text: string)
    requires Plain(price) && Plain(word) && Plain(text)
    ensures ReplacePairs("~~" + price + "~~ <strong>" + word + "</strong><br/>[" + text + "]()", '~', "<del>", "</del>")
      == "<del>" + price + "</del> <strong>" + word + "</strong><br/>[" + text + "]()"
  {
    PlainHasNone(price);
    PlainHasNone(word);
    PlainHasNone(text);
    var rest := " <strong>" + word + "</strong><br/>[" + text + "]()";
    assert '~' !in rest;
    PlainWord(price);
    PairRule(price, rest, '~', "<del>", "</del>");
    PairSkip(rest, [], '~', "<del>", "</del>");
    assert rest + [] == rest;
    StrikeShape(rest, price, word, text);
  }

  lemma StrikeShape(rest: string, price: string, word: string, text: string)
    requires rest == " <strong>" + word + "</strong><br/>[" + text + "]()"
    ensures "~~" + price + "~~ <strong>" + word + "</strong><br/>[" + text + "]()" == ['~', '~'] + price + ['~', '~'] + rest
    ensures "<del>" + price + "</del> <strong>" + word + "</strong><br/>[" + text + "]()" == "<del>" + price + "</del>" + rest
  {
  }

  /**
   * The shape of the store presets' field value, `~~price~~ **word**`, a
   * newline, then `[text]()`: the price is struck, the word bold, the newline
   * a break, and the link with no URL is left as typed.
   */
  lemma StoreValueMarkup(price: string, word: string, text: string)
    requires Plain(price) && Plain(word) && Plain(text) && ']' !in text
    ensures RenderValue("~~" + price + "~~ **" + word + "**\n[" + text + "]()")
      == "<del>" + price + "</del> <strong>" + word + "</strong><br/>[" + text + "]()"
  {
    StoreValueBreaks(price, word, text);
    StoreValueBold(price, word, text);
    StoreValueStrike(price, word, text);
  }

  lemma PlainWord(x: string)
    requires Plain(x)
    ensures forall j :: 0 <= j < |x| ==> !IsLineTerminator(x[j])
  {
  }

  /** How the presets' `Game` field value is shown. */
  lemma GameFieldMarkup()
    ensures RenderValue(Presets.GameField.value) == "<del>€</del> " + "<strong>Free</strong>" + "<br/>[Claim Game]()"
  {
    PlainSamples();
    StoreValueMarkup("€", "Free", "Claim Game");
    GameFieldShape();
    GameFieldShown();
  }

  lemma PlainSamples()
    ensures Plain("€") && Plain("Free") && Plain("Claim Game") && ']' !in "Claim Game"
  {
  }

  lemma GameFieldShape()
    ensures Presets.GameField.value == "~~" + "€" + "~~ **" + "Free" + "**\n[" + "Claim Game" + "]()"
  {
  }

  lemma GameFieldShown()
    ensures "<del>" + "€" + "</del> <strong>" + "Free" + "</strong><br/>[" + "Claim Game" + "]()"
      == "<del>€</del> " + "<strong>Free</strong>" + "<br/>[Claim Game]()"
  {
  }

  lemma {:induction false} CloseAtIs(t: string, d: char, q: nat, r: nat)
    requires q <= r && r + 2 <= |t| && t[r] == d && t[r + 1] == d
    requires forall j :: q <= j < r ==> !(t[j] == d && t[j + 1] == d) && !IsLineTerminator(t[j])
    ensures CloseAt(t, d, q) == Some(r)
    decreases r - q
  {
    if q < r {
      CloseAtIs(t, d, q + 1, r);
    }
  }

  // ---- what a card shows --------------------------------------------------------------

  /** `(embed.footer?.text || embed.timestamp)`: the footer line is shown. */
  predicate ShowsFooterLine(e: Embed) {
    (e.footer.Some? && e.footer.value.text.Some? && e.footer.value.text.value != "")
    || (e.timestamp.Some? && e.timestamp.value != "")
  }

  /** The name above the message: V2 falls back to `Captain Hook`, V1 shows the username as it is. */
  function DisplayName(v: Engine.Variant, username: string): (name: string)
    ensures v == Engine.V1 ==> name == username
    ensures v == Engine.V2 ==> name != "" && (username != "" ==> name == username)
  {
    if v == Engine.V2 && username == "" then "Captain Hook" else username
  }

  /** The card's left border colour. */
  function BorderColor(e: Embed): string {
    Color.HexColor(e.color)
  }

  /** The store presets' cards: a `#85ce4b` border and, for a non-empty timestamp, a footer line. */
  lemma StoreEmbedView(author: string, icon: string, timestamp: string)
    ensures var e := Presets.StoreEmbed(author, icon, timestamp);
      BorderColor(e) == "#85ce4b" && ShowsFooterLine(e)
  {
    Color.ResetColor();
  }

  /** V2's bare embed shows no footer line until footer text or a timestamp is set. */
  lemma BareEmbedView()
    ensures !ShowsFooterLine(Engine.BareEmbed)
    ensures BorderColor(Engine.BareEmbed) == "#000000"
  {
    assert Color.HexDigits(0) == "0";
    assert Color.Zeros(5) == "00000";
  }
}
