/** The java.lang.String and parsing primitives the core relies on:
    `isBlank`, `trim`, `split` on a one-character separator, `String.join`,
    `Integer.parseInt`, `Boolean.parseBoolean`, and the decimal text of a
    number. Each is written out with the JDK's edge cases, except that
    digits are ASCII only: Integer.parseInt also reads the other Unicode
    decimal digits, which this model does not. */
module JavaText {
  import opened Base

  /** Character.isWhitespace: the space separators other than the three
      non-breaking ones, the line and paragraph separators, and the
      controls U+0009..U+000D and U+001C..U+001F. */
  predicate IsWhitespace(c: char) {
    c == ' ' || ('\t' <= c <= '\r') || ('\U{1C}' <= c <= '\U{1F}')
    || c == '\U{1680}' || ('\U{2000}' <= c <= '\U{2006}') || ('\U{2008}' <= c <= '\U{200A}')
    || c == '\U{2028}' || c == '\U{2029}' || c == '\U{205F}' || c == '\U{3000}'
  }

  /** String.isBlank: empty or whitespace only. */
  predicate IsBlank(s: string) {
    forall i :: 0 <= i < |s| ==> IsWhitespace(s[i])
  }

  /** No line terminator of BufferedReader.readLine ('\n' or '\r'): the
      text stays on the one line it is written on. */
  predicate OneLine(s: string) {
    '\n' !in s && '\r' !in s
  }

  /** `s == null || s.isBlank()`, the guard the setters share. */
  predicate NullOrBlank(s: Option<string>) {
    s.None? || IsBlank(s.value)
  }

  /** String.trim removes every character up to U+0020 at either end
      (control characters included, Unicode spaces excluded). */
  predicate Trimmable(c: char) {
    c <= ' '
  }

  function TrimStart(s: string): (r: string)
    ensures |r| <= |s| && r == s[|s| - |r|..]
    ensures r == [] || !Trimmable(r[0])
  {
    if |s| > 0 && Trimmable(s[0]) then TrimStart(s[1..]) else s
  }

  function TrimEnd(s: string): (r: string)
    ensures |r| <= |s| && r == s[..|r|]
    ensures r == [] || !Trimmable(r[|r| - 1])
  {
    if |s| > 0 && Trimmable(s[|s| - 1]) then TrimEnd(s[..|s| - 1]) else s
  }

  /** String.trim. */
  function Trim(s: string): string {
    TrimEnd(TrimStart(s))
  }

  /** A string that trim leaves alone: nothing trimmable at either end. */
  predicate IsTrimmed(s: string) {
    s == [] || (!Trimmable(s[0]) && !Trimmable(s[|s| - 1]))
  }

  lemma TrimResult(s: string)
    ensures IsTrimmed(Trim(s))
  {
    var t := TrimStart(s);
    var r := TrimEnd(t);
    if r != [] {
      assert r == t[..|r|];
      assert r[0] == t[0];
    }
  }

  lemma TrimFixes(s: string)
    requires IsTrimmed(s)
    ensures Trim(s) == s
  {
  }

  /** The serializer writes "; " before a field and the parser trims it:
      the pair is the identity on trimmed text. */
  lemma TrimAfterSpace(s: string)
    requires IsTrimmed(s)
    ensures Trim(" " + s) == s
  {
    assert (" " + s)[1..] == s;
    assert TrimStart(" " + s) == TrimStart(s) == s;
  }

  /** Trimming keeps a string that starts with a character above U+0020
      non-empty. */
  lemma {:induction false} TrimKeepsFirst(s: string)
    requires |s| > 0 && !Trimmable(s[0])
    ensures Trim(s) != []
  {
    assert TrimStart(s) == s;
    TrimEndKeepsFirst(s);
  }

  lemma {:induction false} TrimEndKeepsFirst(s: string)
    requires |s| > 0 && !Trimmable(s[0])
    ensures TrimEnd(s) != []
    decreases |s|
  {
    if Trimmable(s[|s| - 1]) {
      var init := s[..|s| - 1];
      assert |init| > 0 && init[0] == s[0];
      TrimEndKeepsFirst(init);
    }
  }

  /** First position of `c` in `s`, if any. */
  function IndexOf(s: string, c: char): (r: Option<nat>)
    ensures r.None? <==> c !in s
    ensures r.Some? ==> r.value < |s| && s[r.value] == c && c !in s[..r.value]
  {
    if |s| == 0 then None
    else if s[0] == c then Some(0)
    else match IndexOf(s[1..], c)
      case None => None
      case Some(i) =>
        assert s[1..][..i] == s[1..i + 1];
        assert s[..i + 1] == [s[0]] + s[1..i + 1];
        Some(i + 1)
  }

  /** Last position of `c` in `s`, if any. */
  function LastIndexOf(s: string, c: char): (r: Option<nat>)
    ensures r.None? <==> c !in s
    ensures r.Some? ==> r.value < |s| && s[r.value] == c && c !in s[r.value + 1..]
  {
    if |s| == 0 then None
    else if s[|s| - 1] == c then Some(|s| - 1)
    else
      var init := s[..|s| - 1];
      assert s == init + [s[|s| - 1]];
      match LastIndexOf(init, c)
      case None => None
      case Some(i) =>
        assert s[i + 1..] == init[i + 1..] + [s[|s| - 1]];
        Some(i)
  }

  /** The text between successive occurrences of `sep`, empty pieces kept. */
  function Pieces(s: string, sep: char): (r: seq<string>)
    ensures |r| >= 1
    decreases |s|
  {
    match IndexOf(s, sep)
    case None => [s]
    case Some(i) => [s[..i]] + Pieces(s[i + 1..], sep)
  }

  /** Drops the empty strings at the end, as String.split(regex) does. */
  function DropTrailingEmpty(ps: seq<string>): (r: seq<string>)
    ensures |r| <= |ps| && r == ps[..|r|]
    ensures r == [] || r[|r| - 1] != []
  {
    if |ps| > 0 && ps[|ps| - 1] == [] then DropTrailingEmpty(ps[..|ps| - 1]) else ps
  }

  /** String.split with a one-character separator: with no match the whole
      string is the only element; otherwise the pieces, trailing empty
      strings removed. */
  function Split(s: string, sep: char): seq<string> {
    if sep !in s then [s] else DropTrailingEmpty(Pieces(s, sep))
  }

  /** String.join. */
  function Join(parts: seq<string>, sep: char): string {
    if |parts| == 0 then ""
    else if |parts| == 1 then parts[0]
    else parts[0] + [sep] + Join(parts[1..], sep)
  }

  predicate NoneContains(parts: seq<string>, c: char) {
    forall i :: 0 <= i < |parts| ==> c !in parts[i]
  }

  lemma {:induction false} JoinFree(parts: seq<string>, sep: char, c: char)
    requires NoneContains(parts, c) && c != sep
    ensures c !in Join(parts, sep)
  {
    if |parts| > 1 {
      JoinFree(parts[1..], sep, c);
    }
  }

  lemma {:induction false} IndexAfter(a: string, c: char, b: string)
    requires c !in a
    ensures IndexOf(a + [c] + b, c) == Some(|a|)
  {
    if a != [] {
      assert (a + [c] + b)[1..] == a[1..] + [c] + b;
      IndexAfter(a[1..], c, b);
    }
  }

  /** The first piece of `a`, separator, `rest` is `a` when `a` holds no
      separator. */
  lemma PiecesStep(a: string, sep: char, rest: string)
    requires sep !in a
    ensures Pieces(a + [sep] + rest, sep) == [a] + Pieces(rest, sep)
  {
    var s := a + [sep] + rest;
    IndexAfter(a, sep, rest);
    assert s[..|a|] == a;
    assert s[|a| + 1..] == rest;
  }

  lemma {:induction false} PiecesOfJoin(parts: seq<string>, sep: char)
    requires |parts| >= 1 && NoneContains(parts, sep)
    ensures Pieces(Join(parts, sep), sep) == parts
    decreases |parts|
  {
    if |parts| > 1 {
      var rest := Join(parts[1..], sep);
      var s := parts[0] + [sep] + rest;
      assert Join(parts, sep) == s;
      assert NoneContains(parts[1..], sep) by {
        forall i | 0 <= i < |parts[1..]| ensures sep !in parts[1..][i] {
          assert parts[1..][i] == parts[i + 1];
        }
      }
      assert sep !in parts[0];
      PiecesStep(parts[0], sep, rest);
      PiecesOfJoin(parts[1..], sep);
      assert parts == [parts[0]] + parts[1..];
    }
  }

  /** Splitting what was joined gives the parts back when no part holds the
      separator and the last part is not empty. */
  lemma SplitOfJoin(parts: seq<string>, sep: char)
    requires |parts| >= 1 && NoneContains(parts, sep) && parts[|parts| - 1] != []
    ensures Split(Join(parts, sep), sep) == parts
  {
    if |parts| == 1 {
      assert Join(parts, sep) == parts[0];
    } else {
      assert sep in Join(parts, sep) by {
        assert Join(parts, sep)[|parts[0]|] == sep;
      }
      PiecesOfJoin(parts, sep);
    }
  }

  lemma {:induction false} JoinEnds(parts: seq<string>, sep: char)
    requires |parts| >= 1 && forall i :: 0 <= i < |parts| ==> parts[i] != []
    ensures var j := Join(parts, sep); |j| > 0 && j[0] == parts[0][0] && j[|j| - 1] == parts[|parts| - 1][|parts[|parts| - 1]| - 1]
  {
    if |parts| > 1 {
      var tail := parts[1..];
      var rest := Join(tail, sep);
      assert Join(parts, sep) == parts[0] + [sep] + rest;
      assert forall i :: 0 <= i < |tail| ==> tail[i] == parts[i + 1];
      JoinEnds(tail, sep);
      assert tail[|tail| - 1] == parts[|parts| - 1];
    } else {
      assert Join(parts, sep) == parts[0];
    }
  }

  predicate IsDigit(c: char) {
    '0' <= c <= '9'
  }

  predicate AllDigits(s: string) {
    forall i :: 0 <= i < |s| ==> IsDigit(s[i])
  }

  /** The value of a run of decimal digits. */
  function DigitsValue(s: string): nat
    requires AllDigits(s)
  {
    if s == [] then 0 else DigitsValue(s[..|s| - 1]) * 10 + (s[|s| - 1] as int - '0' as int)
  }

  function DigitChar(d: nat): (c: char)
    requires d < 10
    ensures IsDigit(c) && c as int - '0' as int == d
  {
    (d + '0' as int) as char
  }

  /** Decimal text of a natural number, no leading zeros. */
  function NatText(n: nat): (r: string)
    ensures |r| > 0 && AllDigits(r)
  {
    if n < 10 then [DigitChar(n)] else NatText(n / 10) + [DigitChar(n % 10)]
  }

  lemma {:induction false} NatTextValue(n: nat)
    ensures DigitsValue(NatText(n)) == n
  {
    if n >= 10 {
      var t := NatText(n);
      assert t[..|t| - 1] == NatText(n / 10);
      NatTextValue(n / 10);
    }
  }

  /** Decimal text of an integer, '-' in front of a negative one
      (Integer.toString for an int; the model's price and date text). */
  function IntText(n: int): string {
    if n < 0 then "-" + NatText(-n) else NatText(n)
  }

  /** An optional '+' or '-' followed by one or more ASCII digits: the
      syntax Integer.parseInt accepts. */
  function ParseSigned(s: string): Option<int> {
    if |s| > 0 && (s[0] == '-' || s[0] == '+') then
      if |s| > 1 && AllDigits(s[1..]) then
        var magnitude: int := DigitsValue(s[1..]);
        Some(if s[0] == '-' then -magnitude else magnitude)
      else None
    else if |s| > 0 && AllDigits(s) then Some(DigitsValue(s))
    else None
  }

  lemma ParseIntText(n: int)
    ensures ParseSigned(IntText(n)) == Some(n)
  {
    if n < 0 {
      var t := NatText(-n);
      assert IntText(n) == "-" + t;
      assert ("-" + t)[1..] == t;
      NatTextValue(-n);
    } else {
      var t := NatText(n);
      assert t[0] != '-' && t[0] != '+' by { assert IsDigit(t[0]); }
      NatTextValue(n);
    }
  }

  /** Integer.parseInt: the signed syntax, and a value that fits an int. */
  function ParseInt32(s: string): (r: Option<int32>)
    ensures r.Some? ==> ParseSigned(s) == Some(r.value as int)
    ensures ParseSigned(s).Some? && -0x8000_0000 <= ParseSigned(s).value < 0x8000_0000 ==> r.Some?
  {
    match ParseSigned(s)
    case Some(v) => if -0x8000_0000 <= v < 0x8000_0000 then Some(v as int32) else None
    case None => None
  }

  function ToLowerAscii(c: char): char {
    if 'A' <= c <= 'Z' then (c as int + 32) as char else c
  }

  /** Boolean.parseBoolean: "true" in any letter case. */
  predicate ParseBoolean(s: string) {
    |s| == 4 && ToLowerAscii(s[0]) == 't' && ToLowerAscii(s[1]) == 'r'
    && ToLowerAscii(s[2]) == 'u' && ToLowerAscii(s[3]) == 'e'
  }

  /** String.valueOf(boolean). */
  function BoolText(b: bool): string {
    if b then "true" else "false"
  }

  lemma ParseBoolText(b: bool)
    ensures ParseBoolean(BoolText(b)) == b
  {
  }
}
