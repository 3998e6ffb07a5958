/** String operations of Python and JavaScript that several components use. */
module TextTools {

  /** ASCII white space, as `strip` and `trim` remove it. */
  predicate IsSpace(c: char) {
    c == ' ' || c == '\t' || c == '\n' || c == '\r' || c == 11 as char || c == 12 as char
  }

  /** Whether something is left after `strip`: the usual non-empty-text test. */
  predicate HasText(s: string) {
    exists i :: 0 <= i < |s| && !IsSpace(s[i])
  }

  function StripLeft(s: string, strip: char -> bool): (r: string)
    ensures r == [] || !strip(r[0])
    ensures |r| <= |s| && r == s[|s| - |r|..]
  {
    if s != [] && strip(s[0]) then StripLeft(s[1..], strip) else s
  }

  function StripRight(s: string, strip: char -> bool): (r: string)
    ensures r == [] || !strip(r[|r| - 1])
    ensures |r| <= |s| && r == s[..|r|]
  {
    if s != [] && strip(s[|s| - 1]) then StripRight(s[..|s| - 1], strip) else s
  }

  function Strip(s: string, strip: char -> bool): string {
    StripRight(StripLeft(s, strip), strip)
  }

  /** `s.split(sep)` for a one-character separator: never empty. */
  function Split(s: string, sep: char): (parts: seq<string>)
    ensures |parts| >= 1
  {
    if s == [] then [[]]
    else
      var rest := Split(s[1..], sep);
      if s[0] == sep then [[]] + rest else [[s[0]] + rest[0]] + rest[1..]
  }

  /** `sep.join(parts)`. */
  function Join(parts: seq<string>, sep: string): string {
    if parts == [] then []
    else if |parts| == 1 then parts[0]
    else parts[0] + sep + Join(parts[1..], sep)
  }

  /** Splitting undoes joining for parts that do not contain the separator. */
  lemma {:induction false} SplitJoin(parts: seq<string>, sep: char)
    requires parts != [] && forall i :: 0 <= i < |parts| ==> sep !in parts[i]
    ensures Split(Join(parts, [sep]), sep) == parts
  {
    if |parts| == 1 {
      SplitWhole(parts[0], sep);
    } else {
      SplitJoin(parts[1..], sep);
      SplitPrefix(parts[0], Join(parts[1..], [sep]), sep);
      assert parts[0] + [sep] + Join(parts[1..], [sep]) == Join(parts, [sep]);
    }
  }

  lemma {:induction false} SplitWhole(s: string, sep: char)
    requires sep !in s
    ensures Split(s, sep) == [s]
  {
    if s != [] {
      SplitWhole(s[1..], sep);
      assert [s[0]] + s[1..] == s;
    }
  }

  lemma {:induction false} SplitPrefix(s: string, t: string, sep: char)
    requires sep !in s
    ensures Split(s + [sep] + t, sep) == [s] + Split(t, sep)
  {
    var whole := s + [sep] + t;
    if s == [] {
      assert whole[1..] == t;
    } else {
      assert whole[1..] == s[1..] + [sep] + t;
      SplitPrefix(s[1..], t, sep);
      assert [s[0]] + s[1..] == s;
    }
  }

  /** Of two pairs joined by a separator: the second starts later, and the texts make up for it. */
  ghost predicate Shifted(x: string, o: string, y: string, p: string, sep: char) {
    exists m :: y == x + [sep] + m && o == m + [sep] + p
  }

  lemma LongerFirst(x: string, o: string, y: string, p: string, sep: char)
    requires |x| < |y| && x + [sep] + o == y + [sep] + p
    ensures Shifted(x, o, y, p, sep)
  {
    var n := |x|;
    var whole := x + [sep] + o;
    assert whole[..n] == x && y[..n] == whole[..n] && whole[n] == sep && y[n] == whole[n];
    var m := y[n + 1..];
    assert y == x + [sep] + m;
    assert whole[n + 1..] == o && whole[n + 1..] == m + [sep] + p;
  }

  /** Two pairs joined by a separator give the same text exactly when they are equal or one is the other
      with its separator moved. */
  lemma JoinedCollideIff(x: string, o: string, y: string, p: string, sep: char)
    ensures x + [sep] + o == y + [sep] + p <==>
        (x == y && o == p) || Shifted(x, o, y, p, sep) || Shifted(y, p, x, o, sep)
  {
    var whole := x + [sep] + o;
    if whole == y + [sep] + p {
      if |x| < |y| {
        LongerFirst(x, o, y, p, sep);
      } else if |y| < |x| {
        LongerFirst(y, p, x, o, sep);
      } else {
        assert whole[..|x|] == x && whole[..|x|] == y && whole[|x| + 1..] == o && whole[|x| + 1..] == p;
      }
    }
  }
}
