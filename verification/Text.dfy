/** Characters and strings as the C sources treat them (the "C" locale).
    A byte is modelled by the `char` of the same code; larger codes behave like the bytes
    128-255: neither letters, digits, spaces nor control characters. */
module Text {

  datatype Option<+T> = None | Some(value: T)

  predicate IsDigit(c: char) { '0' <= c <= '9' }

  predicate IsAlnum(c: char) { IsDigit(c) || 'a' <= c <= 'z' || 'A' <= c <= 'Z' }

  /** The characters of an unbracketed host name. */
  predicate IsNameChar(c: char) { IsAlnum(c) || c == '.' || c == '-' || c == '_' }

  /** The characters of a name, spelled out. */
  lemma NameCharacters(c: char)
    ensures IsNameChar(c) <==> c in DIGITS || c in SMALL || c in CAPITAL || c == '.' || c == '-' || c == '_'
  {
    hide DIGITS, SMALL, CAPITAL;
    Digits(c);
    SmallLetters(c);
    Capitals(c);
  }

  const DIGITS := "0123456789"
  const SMALL := "abcdefghijklmnopqrstuvwxyz"
  const CAPITAL := "ABCDEFGHIJKLMNOPQRSTUVWXYZ"

  lemma Digits(c: char)
    ensures IsDigit(c) <==> c in DIGITS
  {
    if IsDigit(c) { assert DIGITS[c as int - 48] == c; }
  }

  lemma SmallLetters(c: char)
    ensures 'a' <= c <= 'z' <==> c in SMALL
  {
    if 'a' <= c <= 'z' { assert SMALL[c as int - 97] == c; }
  }

  lemma Capitals(c: char)
    ensures 'A' <= c <= 'Z' <==> c in CAPITAL
  {
    if 'A' <= c <= 'Z' { assert CAPITAL[c as int - 65] == c; }
  }

  function Lower(c: char): char {
    if 'A' <= c <= 'Z' then (c as int + 32) as char else c
  }

  function LowerAll(s: string): (r: string)
    ensures |r| == |s|
    ensures forall i :: 0 <= i < |s| ==> r[i] == Lower(s[i])
  {
    seq(|s|, i requires 0 <= i < |s| => Lower(s[i]))
  }

  /** A capital becomes the small letter 32 codes up; every other character stays. */
  lemma LowerIs(c: char)
    ensures if 65 <= c as int <= 90 then Lower(c) as int == c as int + 32 else Lower(c) == c
  {
  }

  /** Equal letter by letter, where a capital and its small letter count as equal. */
  ghost predicate SameLetters(s: string, t: string) {
    |s| == |t| && forall i :: 0 <= i < |s| ==> s[i] == t[i] || CapitalOf(s[i], t[i]) || CapitalOf(t[i], s[i])
  }

  predicate CapitalOf(c: char, d: char) { 65 <= c as int <= 90 && d as int == c as int + 32 }

  lemma SameLettersLower(s: string, t: string)
    ensures SameLetters(s, t) <==> LowerAll(s) == LowerAll(t)
  {
    if LowerAll(s) == LowerAll(t) {
      forall i | 0 <= i < |s| ensures s[i] == t[i] || CapitalOf(s[i], t[i]) || CapitalOf(t[i], s[i]) {
        assert Lower(s[i]) == LowerAll(s)[i] == LowerAll(t)[i] == Lower(t[i]);
      }
    }
    if SameLetters(s, t) {
      forall i | 0 <= i < |s| ensures LowerAll(s)[i] == LowerAll(t)[i] {
        assert s[i] == t[i] || CapitalOf(s[i], t[i]) || CapitalOf(t[i], s[i]);
      }
    }
  }

  predicate AllDigits(s: string) {
    forall i :: 0 <= i < |s| ==> IsDigit(s[i])
  }

  /** Decimal value of a digit string; 0 for the empty one. */
  function DecValue(s: string): nat
    requires AllDigits(s)
  {
    if s == "" then 0 else 10 * DecValue(s[..|s| - 1]) + (s[|s| - 1] as int - '0' as int)
  }

  /** Decimal digits without leading zeros, as printf's %u writes them. */
  function Dec(n: nat): (s: string)
    ensures s != "" && AllDigits(s)
  {
    var last := [('0' as int + n % 10) as char];
    if n < 10 then last else Dec(n / 10) + last
  }

  lemma {:induction false} DecValueOfDec(n: nat)
    ensures DecValue(Dec(n)) == n
  {
    var s := Dec(n);
    if n < 10 {
      assert s[..0] == "";
    } else {
      DecValueOfDec(n / 10);
      assert s[..|s| - 1] == Dec(n / 10);
    }
  }

  lemma {:induction false} DecLength(n: nat)
    ensures n < 100000 ==> |Dec(n)| <= 5
    ensures n < 10000 ==> |Dec(n)| <= 4
    ensures n < 1000 ==> |Dec(n)| <= 3
    ensures n < 100 ==> |Dec(n)| <= 2
  {
    if n >= 10 { DecLength(n / 10); }
  }

  /** Value of a prefix is at most the value of the whole. */
  lemma {:induction false} DecValuePrefix(s: string, k: nat)
    requires AllDigits(s) && k <= |s|
    ensures DecValue(s[..k]) <= DecValue(s)
  {
    if k == |s| {
      assert s[..k] == s;
    } else {
      DecValuePrefix(s[..|s| - 1], k);
      assert s[..|s| - 1][..k] == s[..k];
    }
  }

  function Repeat(c: char, n: nat): (s: string)
    ensures |s| == n && forall i :: 0 <= i < n ==> s[i] == c
  {
    seq(n, _ => c)
  }

  /** Index of the first `c`, or the length if there is none. */
  function Find(s: string, c: char): (k: nat)
    ensures k <= |s|
    ensures k < |s| ==> s[k] == c
    ensures forall i :: 0 <= i < k ==> s[i] != c
  {
    if s == "" || s[0] == c then 0 else 1 + Find(s[1..], c)
  }

  lemma FindIs(s: string, c: char, k: nat)
    requires k <= |s| && (forall i :: 0 <= i < k ==> s[i] != c) && (k < |s| ==> s[k] == c)
    ensures Find(s, c) == k
  {
  }

  function TrimLeft(s: string, ws: set<char>): (r: string)
    ensures |r| <= |s| && r == s[|s| - |r|..]
    ensures r != "" ==> r[0] !in ws
    ensures forall i :: 0 <= i < |s| - |r| ==> s[i] in ws
  {
    if s != "" && s[0] in ws then TrimLeft(s[1..], ws) else s
  }

  function TrimRight(s: string, ws: set<char>): (r: string)
    ensures |r| <= |s| && r == s[..|r|]
    ensures r != "" ==> r[|r| - 1] !in ws
    ensures forall i :: |r| <= i < |s| ==> s[i] in ws
  {
    if s != "" && s[|s| - 1] in ws then TrimRight(s[..|s| - 1], ws) else s
  }

  lemma TrimLeftIs(s: string, ws: set<char>, k: nat)
    requires k <= |s| && (forall i :: 0 <= i < k ==> s[i] in ws) && (k < |s| ==> s[k] !in ws)
    ensures TrimLeft(s, ws) == s[k..]
  {
    var n := |s| - |TrimLeft(s, ws)|;
    assert n >= k;
    assert n <= k;
  }

  lemma TrimRightIs(s: string, ws: set<char>, k: nat)
    requires k <= |s| && (forall i :: k <= i < |s| ==> s[i] in ws) && (k > 0 ==> s[k - 1] !in ws)
    ensures TrimRight(s, ws) == s[..k]
  {
    var n := |TrimRight(s, ws)|;
    assert n >= k;
    assert n <= k;
  }

  predicate StartsWith(s: string, p: string) {
    |p| <= |s| && s[..|p|] == p
  }

  /** Case-insensitive prefix test. */
  predicate StartsWithCi(s: string, p: string) {
    |p| <= |s| && LowerAll(s[..|p|]) == LowerAll(p)
  }

  predicate ContainsCi(s: string, p: string) {
    exists i :: 0 <= i <= |s| && StartsWithCi(s[i..], p)
  }
}
