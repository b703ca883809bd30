/**
 The parts of Go's strings package the modelled code uses.  Case mapping is exact wherever an ASCII letter
 is involved; other letters are left as they are.
 */
module Strings {

  /** Outside ASCII, only the dotted I and the Kelvin sign have an ASCII lower case. */
  function LowerChar(c: char): char {
    if 'A' <= c <= 'Z' then c - 'A' + 'a'
    else if c == '\U{0130}' then 'i'
    else if c == '\U{212A}' then 'k'
    else c
  }

  /** Outside ASCII, only the dotless i and the long s have an ASCII upper case. */
  function UpperChar(c: char): char {
    if 'a' <= c <= 'z' then c - 'a' + 'A'
    else if c == '\U{0131}' then 'I'
    else if c == '\U{017F}' then 'S'
    else c
  }

  /** Outside ASCII, only the long s and the Kelvin sign fold to an ASCII letter. */
  function FoldChar(c: char): char {
    if 'A' <= c <= 'Z' then c - 'A' + 'a'
    else if c == '\U{017F}' then 's'
    else if c == '\U{212A}' then 'k'
    else c
  }

  function ToLower(s: string): string {
    seq(|s|, i requires 0 <= i < |s| => LowerChar(s[i]))
  }

  function ToUpper(s: string): string {
    seq(|s|, i requires 0 <= i < |s| => UpperChar(s[i]))
  }

  predicate EqualFold(s: string, t: string) {
    |s| == |t| && forall i | 0 <= i < |s| :: FoldChar(s[i]) == FoldChar(t[i])
  }

  /** Unicode's White_Space. */
  predicate IsSpace(c: char) {
    || c == ' ' || '\t' <= c <= '\r' || c == '\U{85}' || c == '\U{A0}' || c == '\U{1680}'
    || '\U{2000}' <= c <= '\U{200A}' || c == '\U{2028}' || c == '\U{2029}' || c == '\U{202F}'
    || c == '\U{205F}' || c == '\U{3000}'
  }

  /** By their codes: tab to carriage return, space, NEL, the no-break space and the wider spaces. */
  lemma SpaceCodes(c: char)
    ensures IsSpace(c)
       <==> var n := c as int;
            || 9 <= n <= 13 || n == 32 || n == 133 || n == 160 || n == 5760 || 8192 <= n <= 8202
            || n == 8232 || n == 8233 || n == 8239 || n == 8287 || n == 12288
  {
  }

  function TrimLeft(s: string, cut: char -> bool): (r: string)
    ensures |r| <= |s| && r == s[|s| - |r|..] && (r != "" ==> !cut(r[0]))
    ensures forall i | 0 <= i < |s| - |r| :: cut(s[i])
  {
    if s != "" && cut(s[0]) then
      var r := TrimLeft(s[1..], cut);
      assert s[1..][|s[1..]| - |r|..] == s[|s| - |r|..];
      r
    else s
  }

  function TrimRight(s: string, cut: char -> bool): (r: string)
    ensures r <= s && (r != "" ==> !cut(r[|r| - 1]))
    ensures forall i | |r| <= i < |s| :: cut(s[i])
  {
    if s != "" && cut(s[|s| - 1]) then TrimRight(s[..|s| - 1], cut) else s
  }

  function Trim(s: string, cut: char -> bool): string {
    TrimRight(TrimLeft(s, cut), cut)
  }

  function TrimSpace(s: string): string {
    Trim(s, IsSpace)
  }

  /** The first index at or after `from` where the predicate holds; -1 if there is none. */
  function IndexFrom(s: string, found: char -> bool, from: nat): (r: int)
    requires from <= |s|
    ensures -1 <= r < |s| && (r >= 0 ==> r >= from && found(s[r]))
    ensures forall i | from <= i < (if r < 0 then |s| else r) :: !found(s[i])
    decreases |s| - from
  {
    if from == |s| then -1 else if found(s[from]) then from else IndexFrom(s, found, from + 1)
  }

  function Index(s: string, c: char): (r: int)
    ensures -1 <= r < |s| && (r >= 0 ==> s[r] == c)
  {
    IndexFrom(s, x => x == c, 0)
  }

  function LastIndex(s: string, c: char): (r: int)
    ensures -1 <= r < |s| && (r >= 0 ==> s[r] == c)
    ensures forall i | r < i < |s| :: s[i] != c
  {
    if s == "" then -1 else if s[|s| - 1] == c then |s| - 1 else LastIndex(s[..|s| - 1], c)
  }

  predicate HasSuffix(s: string, t: string) {
    |t| <= |s| && s[|s| - |t|..] == t
  }

  function TrimPrefix(s: string, p: string): string {
    if p <= s then s[|p|..] else s
  }

  function TrimSuffix(s: string, t: string): string {
    if HasSuffix(s, t) then s[..|s| - |t|] else s
  }

  /** The pieces between separators; there is always at least one. */
  function SplitOn(s: string, c: char): (parts: seq<string>)
    ensures parts != []
    decreases |s|
  {
    var i := Index(s, c);
    if i < 0 then [s] else [s[..i]] + SplitOn(s[i + 1..], c)
  }

  /** Go's < on strings. */
  predicate Less(a: string, b: string) {
    b != "" && (a == "" || a[0] < b[0] || (a[0] == b[0] && Less(a[1..], b[1..])))
  }

  lemma {:induction false} LessOrders(a: string, b: string, c: string)
    ensures !Less(a, a)
    ensures Less(a, b) || Less(b, a) || a == b
    ensures Less(a, b) && Less(b, c) ==> Less(a, c)
  {
    if a != "" {
      LessOrders(a[1..], if b != "" then b[1..] else b, if c != "" then c[1..] else c);
      if b != "" && a[0] == b[0] && a[1..] == b[1..] {
        assert a == [a[0]] + a[1..] && b == [b[0]] + b[1..];
      }
    }
  }

  /** a and b agree in front of i, and there a ends or has the smaller character. */
  predicate LessAt(a: string, b: string, i: int) {
    0 <= i <= |a| && i < |b| && a[..i] == b[..i] && (i == |a| || a[i] < b[i])
  }

  lemma LessAtTails(a: string, b: string, i: nat)
    requires a != "" && b != "" && a[0] == b[0]
    ensures LessAt(a, b, i + 1) <==> LessAt(a[1..], b[1..], i)
  {
    if i < |a| && i < |b| {
      assert a[..i + 1] == [a[0]] + a[1..][..i] && b[..i + 1] == [a[0]] + b[1..][..i];
      assert a[..i + 1][1..] == a[1..][..i] && b[..i + 1][1..] == b[1..][..i];
    }
  }

  lemma SharedHead(a: string, b: string, i: nat)
    requires 0 < i <= |a| && i <= |b| && a[..i] == b[..i]
    ensures a[0] == b[0]
  {
    assert a[..i][0] == a[0] && b[..i][0] == b[0];
  }

  /** The order is the ascending one of dictionaries, by character codes. */
  lemma {:induction false} LessExact(a: string, b: string)
    ensures Less(a, b) <==> exists i :: LessAt(a, b, i)
    decreases |a|
  {
    if Less(a, b) {
      if a == "" || a[0] < b[0] {
        assert LessAt(a, b, 0);
      } else {
        LessExact(a[1..], b[1..]);
        var i :| LessAt(a[1..], b[1..], i);
        LessAtTails(a, b, i);
      }
    }
    if i :| LessAt(a, b, i) {
      if i > 0 {
        SharedHead(a, b, i);
        LessAtTails(a, b, i - 1);
        LessExact(a[1..], b[1..]);
      }
    }
  }

  predicate Ascii(s: string) {
    forall i | 0 <= i < |s| :: s[i] as int < 128
  }

  /** Upper and lower case of an ASCII letter lie 32 codes apart; other ASCII characters stay. */
  lemma CaseCodes(c: char)
    requires c as int < 128
    ensures UpperChar(c) as int == if 97 <= c as int <= 122 then c as int - 32 else c as int
    ensures LowerChar(c) as int == if 65 <= c as int <= 90 then c as int + 32 else c as int
    ensures FoldChar(c) == LowerChar(c)
  {
  }

  /** ASCII texts are equal under folding exactly if they are in lower case. */
  lemma FoldIsLower(s: string, t: string)
    requires Ascii(s) && Ascii(t)
    ensures EqualFold(s, t) <==> ToLower(s) == ToLower(t)
  {
    forall i | 0 <= i < |s| ensures FoldChar(s[i]) == LowerChar(s[i]) == ToLower(s)[i] {
      CaseCodes(s[i]);
    }
    forall i | 0 <= i < |t| ensures FoldChar(t[i]) == LowerChar(t[i]) == ToLower(t)[i] {
      CaseCodes(t[i]);
    }
    assert |ToLower(s)| == |s| && |ToLower(t)| == |t|;
  }
}
