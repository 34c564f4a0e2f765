/** The string helpers the service relies on: null-or-blank tests, joining and splitting. */
module Text {
  import opened Wrappers
  import opened Sequences

  /** A C# string reference, which may be null. */
  type NString = Option<string>

  /** char.IsWhiteSpace: the Unicode White_Space characters. */
  predicate IsWhiteSpace(c: char) {
    c == ' ' || ('\t' <= c <= '\r') || c == '\U{0085}' || c == '\U{00A0}' || c == '\U{1680}'
    || ('\U{2000}' <= c <= '\U{200A}') || c == '\U{2028}' || c == '\U{2029}'
    || c == '\U{202F}' || c == '\U{205F}' || c == '\U{3000}'
  }

  /** True of the empty string and of strings made of white space only. */
  predicate IsBlank(s: string) {
    forall i :: 0 <= i < |s| ==> IsWhiteSpace(s[i])
  }

  /** string.IsNullOrWhiteSpace */
  predicate IsNullOrWhiteSpace(s: NString) {
    s.None? || IsBlank(s.value)
  }

  /** How string.Format renders a possibly-null string argument: null becomes "". */
  function Render(s: NString): (r: string)
    ensures s.Some? ==> r == s.value
    ensures s.None? ==> r == ""
  {
    if s.Some? then s.value else ""
  }

  /** string.Join(sep, parts) */
  function Join(parts: seq<string>, sep: string): string {
    if |parts| == 0 then ""
    else if |parts| == 1 then parts[0]
    else parts[0] + sep + Join(parts[1..], sep)
  }

  /** Splits `s` at every occurrence of `c`; the pieces never contain `c`. */
  function SplitOn(s: string, c: char): (r: seq<string>)
    ensures |r| >= 1
    ensures forall i :: 0 <= i < |r| ==> c !in r[i]
  {
    if |s| == 0 then [""]
    else if s[0] == c then [""] + SplitOn(s[1..], c)
    else
      var rest := SplitOn(s[1..], c);
      [[s[0]] + rest[0]] + rest[1..]
  }

  /** A string without the separator is a single piece. */
  lemma {:induction false} SplitOnWithout(s: string, c: char)
    requires c !in s
    ensures SplitOn(s, c) == [s]
  {
    if |s| > 0 {
      assert c !in s[1..] by {
        forall k | 0 <= k < |s[1..]| ensures s[1..][k] != c { assert s[1..][k] == s[k + 1]; }
      }
      SplitOnWithout(s[1..], c);
      assert s[0] != c && [s[0]] + s[1..] == s;
    }
  }

  /** Splitting at a separator occurrence splits the two sides independently. */
  lemma {:induction false} SplitOnAround(a: string, c: char, b: string)
    ensures SplitOn(a + [c] + b, c) == SplitOn(a, c) + SplitOn(b, c)
  {
    var s := a + [c] + b;
    if |a| == 0 {
      assert s == [c] + b;
      assert s[1..] == b;
    } else {
      assert s[0] == a[0];
      assert s[1..] == a[1..] + [c] + b;
      SplitOnAround(a[1..], c, b);
      var A, B := SplitOn(a[1..], c), SplitOn(b, c);
      if a[0] == c {
        AppendAssociative([""], A, B);
      } else {
        var rest := A + B;
        assert rest[0] == A[0] && rest[1..] == A[1..] + B;
        AppendAssociative([[a[0]] + A[0]], A[1..], B);
      }
    }
  }

  /** One ", " separator, seen as a ',' between the text before it and a space before the rest. */
  lemma JoinStep(p: string, x: string, j: string)
    ensures p + (x + ", " + j) == (p + x) + [','] + (" " + j)
  {
    assert ", " == [','] + " ";
    AppendAssociative(x, [','] + " ", j);
    AppendAssociative(x, [','], " ");
    AppendAssociative(x + [','], " ", j);
    AppendAssociative(p, x + [','], " " + j);
    AppendAssociative(p, x, [',']);
  }

  /**
   * Splitting a ", "-joined text at ',' gives back the parts, every part after the first
   * keeping the space of its separator; `p` is glued to the first part.
   */
  lemma {:induction false} SplitOnJoin(p: string, parts: seq<string>)
    requires |parts| >= 1
    requires ',' !in p
    requires forall i :: 0 <= i < |parts| ==> ',' !in parts[i]
    ensures var r := SplitOn(p + Join(parts, ", "), ',');
            && |r| == |parts|
            && r[0] == p + parts[0]
            && forall i :: 1 <= i < |parts| ==> r[i] == " " + parts[i]
    decreases |parts|
  {
    if |parts| == 1 {
      assert ',' !in p + parts[0];
      SplitOnWithout(p + parts[0], ',');
    } else {
      var rest := parts[1..];
      assert Join(parts, ", ") == parts[0] + ", " + Join(rest, ", ");
      JoinStep(p, parts[0], Join(rest, ", "));
      SplitOnAround(p + parts[0], ',', " " + Join(rest, ", "));
      assert ',' !in p + parts[0];
      SplitOnWithout(p + parts[0], ',');
      assert forall i :: 0 <= i < |rest| ==> rest[i] == parts[i + 1];
      SplitOnJoin(" ", rest);
      var r := SplitOn(p + Join(parts, ", "), ',');
      var r' := SplitOn(" " + Join(rest, ", "), ',');
      assert r == [p + parts[0]] + r';
      forall i | 1 <= i < |parts| ensures r[i] == " " + parts[i] {
        assert r[i] == r'[i - 1];
      }
    }
  }
}
