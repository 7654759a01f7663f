/** Go strings as byte sequences: trimming, byte order and hexadecimal text. */
module GoStrings {
  import opened Sorting

  type byte = b: int | 0 <= b < 256

  type Str = seq<byte>

  datatype Option<+T> = None | Some(value: T)

  // ---- strings.TrimSpace, on ASCII white space ---------------------------------

  predicate IsSpace(b: byte) {
    b == 0x20 || 0x09 <= b <= 0x0D
  }

  function TrimLeft(s: Str): Str {
    if s != [] && IsSpace(s[0]) then TrimLeft(s[1..]) else s
  }

  function TrimRight(s: Str): Str {
    if s != [] && IsSpace(s[|s| - 1]) then TrimRight(s[..|s| - 1]) else s
  }

  function TrimSpace(s: Str): Str {
    TrimRight(TrimLeft(s))
  }

  predicate Trimmed(s: Str) {
    s != [] ==> !IsSpace(s[0]) && !IsSpace(s[|s| - 1])
  }

  lemma {:induction false} TrimLeftStarts(s: Str)
    ensures TrimLeft(s) != [] ==> !IsSpace(TrimLeft(s)[0])
  {
    if s != [] && IsSpace(s[0]) { TrimLeftStarts(s[1..]); }
  }

  lemma {:induction false} TrimRightEnds(s: Str)
    ensures TrimRight(s) != [] ==> !IsSpace(TrimRight(s)[|TrimRight(s)| - 1]) && TrimRight(s)[0] == s[0]
    ensures |TrimRight(s)| <= |s| && TrimRight(s) == s[..|TrimRight(s)|]
  {
    if s != [] && IsSpace(s[|s| - 1]) { TrimRightEnds(s[..|s| - 1]); }
  }

  lemma TrimSpaceTrims(s: Str)
    ensures Trimmed(TrimSpace(s))
    ensures Trimmed(s) ==> TrimSpace(s) == s
  {
    TrimLeftStarts(s);
    TrimRightEnds(TrimLeft(s));
  }

  // ---- byte order ------------------------------------------------------------------

  predicate LexLess(s: Str, t: Str) {
    if t == [] then false
    else if s == [] then true
    else s[0] < t[0] || (s[0] == t[0] && LexLess(s[1..], t[1..]))
  }

  lemma {:induction false} LexTotal(s: Str, t: Str)
    ensures LexLess(s, t) || LexLess(t, s) || s == t
    ensures !(LexLess(s, t) && LexLess(t, s))
  {
    if s != [] && t != [] {
      LexTotal(s[1..], t[1..]);
      assert s == [s[0]] + s[1..] && t == [t[0]] + t[1..];
    }
  }

  lemma {:induction false} LexTransitive(s: Str, t: Str, u: Str)
    requires LexLess(s, t) && LexLess(t, u)
    ensures LexLess(s, u)
  {
    if s != [] && s[0] == t[0] && t[0] == u[0] { LexTransitive(s[1..], t[1..], u[1..]); }
  }

  /** Byte order is total, so strings are sorted in one way only. */
  lemma LexIsStrictWeakOrder()
    ensures StrictWeakOrder(LexLess)
  {
    forall s: Str, t: Str ensures LexLess(s, t) ==> !LexLess(t, s) { LexTotal(s, t); }
    forall s: Str, t: Str, u: Str | !LexLess(t, s) && !LexLess(u, t) ensures !LexLess(u, s) {
      LexTotal(s, t);
      LexTotal(t, u);
      LexTotal(u, s);
      if s != t && t != u { LexTransitive(s, t, u); }
    }
  }

  /** Byte order: the first string ends first, or has the smaller byte where they first differ. */
  lemma {:induction false} LexLessIff(a: Str, b: Str)
    ensures LexLess(a, b) <==> exists k: nat :: FirstDifference(a, b, k) && k < |b| && (k == |a| || (k < |a| && a[k] < b[k]))
  {
    if a != [] && b != [] && a[0] == b[0] {
      LexLessIff(a[1..], b[1..]);
      forall k: nat ensures FirstDifference(a, b, k + 1) <==> FirstDifference(a[1..], b[1..], k) { TailsDiffer(a, b, k); }
      if k: nat :| FirstDifference(a[1..], b[1..], k) && k < |b[1..]| && (k == |a[1..]| || (k < |a[1..]| && a[1..][k] < b[1..][k])) {
        assert FirstDifference(a, b, k + 1);
      }
      if k: nat :| FirstDifference(a, b, k) && k < |b| && (k == |a| || (k < |a| && a[k] < b[k])) {
        assert k > 0 && FirstDifference(a[1..], b[1..], k - 1);
      }
    } else {
      assert FirstDifference(a, b, 0);
    }
  }

  /** The strings agree before position k and not at it. */
  predicate FirstDifference(a: Str, b: Str, k: nat) {
    && k <= |a| && k <= |b| && a[..k] == b[..k]
    && (k < |a| && k < |b| ==> a[k] != b[k])
  }

  lemma TailsDiffer(a: Str, b: Str, k: nat)
    requires a != [] && b != [] && a[0] == b[0]
    ensures FirstDifference(a, b, k + 1) <==> FirstDifference(a[1..], b[1..], k)
  {
    if k < |a| && k < |b| {
      assert a[..k + 1] == [a[0]] + a[1..][..k] && b[..k + 1] == [b[0]] + b[1..][..k];
      assert a[1..][..k] == a[..k + 1][1..] && b[1..][..k] == b[..k + 1][1..];
    }
  }

  predicate AllSpace(s: Str) {
    forall i :: 0 <= i < |s| ==> s[i] in {9, 10, 11, 12, 13, 32}
  }

  lemma {:induction false} TrimLeftIs(s: Str) returns (pre: Str)
    ensures s == pre + TrimLeft(s) && AllSpace(pre)
  {
    if s != [] && IsSpace(s[0]) {
      pre := TrimLeftIs(s[1..]);
      pre := [s[0]] + pre;
    } else {
      pre := [];
    }
  }

  lemma {:induction false} TrimRightIs(s: Str) returns (post: Str)
    ensures s == TrimRight(s) + post && AllSpace(post)
  {
    if s != [] && IsSpace(s[|s| - 1]) {
      post := TrimRightIs(s[..|s| - 1]);
      assert s == s[..|s| - 1] + [s[|s| - 1]];
      post := post + [s[|s| - 1]];
    } else {
      post := [];
    }
  }

  /** Trimming takes away white space at both ends, all of it, and nothing else. */
  lemma TrimSpaceIs(s: Str) returns (pre: Str, post: Str)
    ensures s == pre + TrimSpace(s) + post && AllSpace(pre) && AllSpace(post)
    ensures TrimSpace(s) != [] ==> TrimSpace(s)[0] !in {9, 10, 11, 12, 13, 32} && TrimSpace(s)[|TrimSpace(s)| - 1] !in {9, 10, 11, 12, 13, 32}
  {
    pre := TrimLeftIs(s);
    post := TrimRightIs(TrimLeft(s));
    TrimSpaceTrims(s);
  }

  // ---- hexadecimal text ---------------------------------------------------------------

  function Digit(n: nat): byte
    requires n < 16
  {
    if n < 10 then 0x30 + n else 0x61 + n - 10
  }

  /** The value of a hexadecimal digit in either case. */
  function DigitValue(b: byte): (r: Option<nat>)
    ensures r.Some? ==> r.value < 16
  {
    if 0x30 <= b <= 0x39 then Some(b - 0x30)
    else if 0x61 <= b <= 0x66 then Some(b - 0x61 + 10)
    else if 0x41 <= b <= 0x46 then Some(b - 0x41 + 10)
    else None
  }

  /** `hex.EncodeToString` */
  function Hex(b: seq<byte>): Str {
    if b == [] then [] else [Digit(b[0] / 16), Digit(b[0] % 16)] + Hex(b[1..])
  }

  /** `hex.DecodeString` */
  function Unhex(s: Str): Option<seq<byte>> {
    if s == [] then Some([])
    else if |s| == 1 then None
    else
      match (DigitValue(s[0]), DigitValue(s[1]), Unhex(s[2..]))
      case (Some(h), Some(l), Some(rest)) => Some([16 * h + l] + rest)
      case _ => None
  }

  /** The digits 0 to 9, and a to f in either case, and no other bytes. */
  lemma DigitValues(b: byte, v: nat)
    ensures DigitValue(b) == Some(v) <==> v < 16 && (b == HEX_DIGITS[v] || (v >= 10 && b == HEX_DIGITS[v] - 32))
  {
  }

  lemma {:induction false} UnhexHex(b: seq<byte>)
    ensures Unhex(Hex(b)) == Some(b)
  {
    if b != [] {
      UnhexHex(b[1..]);
      assert Hex(b)[2..] == Hex(b[1..]);
      assert b == [b[0]] + b[1..];
    }
  }

  lemma {:induction false} HexLength(b: seq<byte>)
    ensures |Hex(b)| == 2 * |b|
  {
    if b != [] { HexLength(b[1..]); }
  }

  /** Two digits a byte, 0 to 9 and a to f, the high half first. */
  lemma {:induction false} HexIs(b: seq<byte>, i: nat)
    requires i < |b|
    ensures |Hex(b)| == 2 * |b| && Hex(b)[2 * i] == HEX_DIGITS[b[i] / 16] && Hex(b)[2 * i + 1] == HEX_DIGITS[b[i] % 16]
  {
    HexLength(b);
    if i > 0 {
      HexIs(b[1..], i - 1);
      assert Hex(b)[2..] == Hex(b[1..]);
    }
  }

  const HEX_DIGITS: Str := [48, 49, 50, 51, 52, 53, 54, 55, 56, 57, 97, 98, 99, 100, 101, 102]

  lemma HexInjective(a: seq<byte>, b: seq<byte>)
    requires Hex(a) == Hex(b)
    ensures a == b
  {
    UnhexHex(a);
    UnhexHex(b);
  }
}

/** Times as nanosecond counts; 0 is Go's zero `time.Time`. */
module GoTime {
  type Time = int

  const SECOND := 1_000_000_000

  predicate IsZero(t: Time) {
    t == 0
  }
}
