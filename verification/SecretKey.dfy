/**
 * From SECRET_KEY to the cipher's key (DeriveKey32 in internal/auth/crypto.go).
 * A character stands for one byte of a Go string or slice. The base64 decoders
 * and the hash are parameters.
 */
module SecretKey {
  import opened Wrappers

  /** What AES-256 takes. */
  type Key = k: string | |k| == 32 witness seq(32, i => ' ')

  /** base64.StdEncoding, base64.RawStdEncoding and sha256.Sum256. */
  datatype Codecs = Codecs(std: string -> Option<string>, raw: string -> Option<string>, sum: string -> Key)

  function HexDigit(c: char): (d: Option<nat>)
    ensures d.Some? ==> d.value < 16
  {
    if '0' <= c <= '9' then Some((c - '0') as nat)
    else if 'a' <= c <= 'f' then Some((c - 'a') as nat + 10)
    else if 'A' <= c <= 'F' then Some((c - 'A') as nat + 10)
    else None
  }

  predicate Hex(s: string) { forall c <- s :: HexDigit(c).Some? }

  /** hex.DecodeString of a text of hex digits only. */
  function Unhex(s: string): (b: string)
    requires |s| % 2 == 0 && Hex(s)
    ensures |b| == |s| / 2
  {
    seq(|s| / 2, i requires 0 <= i < |s| / 2 => HexByte(s[2 * i], s[2 * i + 1]))
  }

  function HexByte(hi: char, lo: char): char
    requires HexDigit(hi).Some? && HexDigit(lo).Some?
  {
    (16 * HexDigit(hi).value + HexDigit(lo).value) as char
  }

  predicate HexKey(text: string) { |text| == 64 && Hex(text) }

  function Base64Key(c: Codecs, text: string): Option<Key> {
    if |text| < 43 then None
    else if c.std(text).Some? && |c.std(text).value| == 32 then Some(c.std(text).value)
    else if c.raw(text).Some? && |c.raw(text).value| == 32 then Some(c.raw(text).value)
    else None
  }

  /** Neither decoding applies and the text is long enough to be cut. */
  predicate RawKey(c: Codecs, text: string) { !HexKey(text) && Base64Key(c, text).None? && |text| >= 32 }

  function DeriveKey32(c: Codecs, text: string): Key {
    if HexKey(text) then Unhex(text)
    else if Base64Key(c, text).Some? then Base64Key(c, text).value
    else if |text| >= 32 then text[..32]
    else c.sum(text)
  }

  // ----------------------------------------------- texts that share a key

  /** A raw text counts up to its 32nd byte. */
  lemma SameRawKeyExactly(c: Codecs, a: string, b: string)
    requires RawKey(c, a) && RawKey(c, b)
    ensures DeriveKey32(c, a) == DeriveKey32(c, b) <==> a[..32] == b[..32]
  {
  }

  function Lower(ch: char): char {
    if 'A' <= ch <= 'Z' then ch - 'A' + 'a' else ch
  }

  lemma SameDigit(a: char, b: char)
    requires HexDigit(a).Some? && HexDigit(b).Some?
    ensures HexDigit(a) == HexDigit(b) <==> Lower(a) == Lower(b)
  {
  }

  lemma SameByte(a: char, b: char, x: char, y: char)
    requires HexDigit(a).Some? && HexDigit(b).Some? && HexDigit(x).Some? && HexDigit(y).Some?
    ensures HexByte(a, b) == HexByte(x, y) <==> Lower(a) == Lower(x) && Lower(b) == Lower(y)
  {
    hide HexDigit, Lower;
    SameDigit(a, x);
    SameDigit(b, y);
    var m, n := 16 * HexDigit(a).value + HexDigit(b).value, 16 * HexDigit(x).value + HexDigit(y).value;
    assert m as char == n as char <==> m == n;
  }

  /** Two hex texts derive one key exactly when they differ in letter case alone. */
  lemma SameHexKeyExactly(c: Codecs, a: string, b: string)
    requires HexKey(a) && HexKey(b)
    ensures DeriveKey32(c, a) == DeriveKey32(c, b) <==> forall i :: 0 <= i < 64 ==> Lower(a[i]) == Lower(b[i])
  {
    forall k | 0 <= k < 32
      ensures Unhex(a)[k] == Unhex(b)[k] <==> Lower(a[2 * k]) == Lower(b[2 * k]) && Lower(a[2 * k + 1]) == Lower(b[2 * k + 1])
    {
      SameByte(a[2 * k], a[2 * k + 1], b[2 * k], b[2 * k + 1]);
    }
    if Unhex(a) == Unhex(b) {
      forall i | 0 <= i < 64 ensures Lower(a[i]) == Lower(b[i]) {
        var k := i / 2;
        assert i == 2 * k || i == 2 * k + 1;
        assert Unhex(a)[k] == Unhex(b)[k];
      }
    } else {
      var k :| 0 <= k < 32 && Unhex(a)[k] != Unhex(b)[k];
      assert Lower(a[2 * k]) != Lower(b[2 * k]) || Lower(a[2 * k + 1]) != Lower(b[2 * k + 1]);
    }
  }

  // ------------------------------------------------------- writing a key down

  function DigitOf(v: nat): char
    requires v < 16
  {
    if v < 10 then '0' + v as char else 'a' + (v - 10) as char
  }

  /** A key in hex. */
  function HexText(b: string): (s: string)
    requires forall i :: 0 <= i < |b| ==> b[i] as int < 256
    ensures |s| == 2 * |b|
  {
    if b == [] then [] else [DigitOf(b[0] as int / 16), DigitOf(b[0] as int % 16)] + HexText(b[1..])
  }

  lemma {:induction false} HexTextReads(b: string)
    requires forall i :: 0 <= i < |b| ==> b[i] as int < 256
    ensures Hex(HexText(b)) && forall i :: 0 <= i < |b| ==> HexByte(HexText(b)[2 * i], HexText(b)[2 * i + 1]) == b[i]
  {
    if b != [] {
      var rest, hi, lo := HexText(b[1..]), b[0] as int / 16, b[0] as int % 16;
      HexTextReads(b[1..]);
      DigitReads(hi);
      DigitReads(lo);
      assert HexText(b) == [DigitOf(hi), DigitOf(lo)] + rest;
      assert HexByte(DigitOf(hi), DigitOf(lo)) == b[0];
      hide HexDigit, DigitOf, HexByte;
      forall c | c in HexText(b) ensures HexDigit(c).Some? {
        assert c == DigitOf(hi) || c == DigitOf(lo) || c in rest;
      }
      forall i | 0 < i < |b| ensures HexByte(HexText(b)[2 * i], HexText(b)[2 * i + 1]) == b[i] {
        assert HexText(b)[2 * i] == rest[2 * (i - 1)] && HexText(b)[2 * i + 1] == rest[2 * (i - 1) + 1];
      }
    }
  }

  lemma DigitReads(v: nat)
    requires v < 16
    ensures HexDigit(DigitOf(v)) == Some(v)
  {
  }

  /** A key written in hex, in whatever letter case, derives to itself, */
  lemma HexRoundTrip(c: Codecs, k: Key, text: string)
    requires forall i :: 0 <= i < 32 ==> k[i] as int < 256
    requires |text| == 64 && forall i :: 0 <= i < 64 ==> Lower(text[i]) == HexText(k)[i]
    ensures DeriveKey32(c, text) == k
  {
    var plain := HexText(k);
    HexTextReads(k);
    assert Unhex(plain) == k;
    hide HexByte, Unhex, HexText;
    forall i | 0 <= i < 64 ensures HexDigit(text[i]).Some? && Lower(text[i]) == Lower(plain[i]) {
      assert plain[i] in plain;
      EitherCase(text[i]);
    }
    hide HexDigit, Lower;
    SameHexKeyExactly(c, text, plain);
  }

  lemma EitherCase(ch: char)
    ensures HexDigit(Lower(ch)).Some? ==> HexDigit(ch).Some?
    ensures Lower(Lower(ch)) == Lower(ch)
  {
  }

  /**
   * so does one that a base64 decoder reads back, with padding or without, and
   * one of 32 bytes that is its own text.
   */
  lemma Base64RoundTrip(c: Codecs, k: Key, text: string)
    requires |text| == 43 || |text| == 44
    ensures c.std(text) == Some(k) ==> DeriveKey32(c, text) == k
    ensures c.std(text) == None && c.raw(text) == Some(k) ==> DeriveKey32(c, text) == k
    ensures DeriveKey32(c, k) == k
  {
    assert k[..32] == k;
  }
}
