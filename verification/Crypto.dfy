/** The cryptographic library as parameters, with the ideal behaviour assumed of it. */
module Crypto {
  import opened GoStrings

  /** SHA-256; HMAC-SHA-256 of (key, message); AES-GCM seal and open of
      (key, nonce, text, additional data). */
  datatype Primitives = Primitives(
    sha256: Str -> Str,
    hmac: (Str, Str) -> Str,
    seal: (Str, Str, Str, Str) -> Str,
    open: (Str, Str, Str, Str) -> Option<Str>)

  const KEY_SIZE := 32
  const TAG_SIZE := 16

  ghost predicate ShaIdeal(c: Primitives) {
    && (forall x :: |c.sha256(x)| == 32)
    && (forall x, y :: |x| == KEY_SIZE && |y| == KEY_SIZE && c.sha256(x) == c.sha256(y) ==> x == y)
  }

  ghost predicate HmacShape(c: Primitives) {
    forall k, m :: |c.hmac(k, m)| == 32
  }

  /** Opening undoes sealing and accepts nothing else (section 2 of RFC 5116; GCM is
      deterministic once key, nonce and additional data are fixed). */
  ghost predicate AeadIdeal(c: Primitives) {
    && (forall k, n, p, a :: |c.seal(k, n, p, a)| == |p| + TAG_SIZE)
    && (forall k, n, p, a :: c.open(k, n, c.seal(k, n, p, a), a) == Some(p))
    && (forall k, n, t, a :: c.open(k, n, t, a).Some? ==> t == c.seal(k, n, c.open(k, n, t, a).value, a))
  }

  ghost predicate Ideal(c: Primitives) {
    ShaIdeal(c) && HmacShape(c) && AeadIdeal(c)
  }

  const ZERO_TAG: Str := [0, 0, 0, 0, 0, 0, 0, 0, 0, 0, 0, 0, 0, 0, 0, 0]

  function TagOpen(t: Str): Option<Str> {
    if |t| >= TAG_SIZE && t[|t| - TAG_SIZE..] == ZERO_TAG then Some(t[..|t| - TAG_SIZE]) else None
  }

  lemma TagOpens(p: Str, t: Str)
    ensures TagOpen(p + ZERO_TAG) == Some(p)
    ensures TagOpen(t).Some? ==> t == TagOpen(t).value + ZERO_TAG
  {
    assert (p + ZERO_TAG)[|p|..] == ZERO_TAG && (p + ZERO_TAG)[..|p|] == p;
  }

  /** The assumptions can be met together. */
  lemma IdealIsSatisfiable() returns (c: Primitives)
    ensures Ideal(c)
  {
    var zeros := ZERO_TAG + ZERO_TAG;
    c := Primitives(
      (x: Str) => if |x| == 32 then x else zeros,
      (k: Str, m: Str) => zeros,
      (k: Str, n: Str, p: Str, a: Str) => p + ZERO_TAG,
      (k: Str, n: Str, t: Str, a: Str) => TagOpen(t));
    forall p: Str ensures TagOpen(p + ZERO_TAG) == Some(p) { TagOpens(p, []); }
    forall t: Str ensures TagOpen(t).Some? ==> t == TagOpen(t).value + ZERO_TAG { TagOpens([], t); }
    assert AeadIdeal(c);
  }
}
