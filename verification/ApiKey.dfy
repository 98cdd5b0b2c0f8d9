/**
 * The text of personal API keys (internal/auth/apikey.go): 32 random bytes as
 * 43 base62 digits behind a fixed prefix.
 */
module ApiKey {
  import opened Wrappers

  const API_KEY_PREFIX: string := "osk_"
  const API_KEY_BODY_LEN: nat := 43
  const API_KEY_DISPLAY_LEN: nat := 8
  const BASE62_ALPHABET: string := "0123456789" + "ABCDEFGHIJKLMNOPQRSTUVWXYZ" + "abcdefghijklmnopqrstuvwxyz"

  newtype byte = b: int | 0 <= b < 256

  function Pow(b: nat, e: nat): nat {
    if e == 0 then 1 else b * Pow(b, e - 1)
  }

  /** big.Int.SetBytes: big-endian. */
  function Number(b: seq<byte>): nat {
    if b == [] then 0 else Number(b[..|b| - 1]) * 256 + b[|b| - 1] as nat
  }

  /** base62Alphabet[v], by its three ranges. */
  function Digit(v: nat): char
    requires v < 62
  {
    (if v < 10 then '0' as int + v else if v < 36 then 'A' as int + v - 10 else 'a' as int + v - 36) as char
  }

  lemma AlphabetIsDigits(v: nat)
    requires v < 62
    ensures |BASE62_ALPHABET| == 62 && BASE62_ALPHABET[v] == Digit(v)
  {
    if v < 10 {
      assert BASE62_ALPHABET[v] == "0123456789"[v];
    } else if v < 36 {
      assert BASE62_ALPHABET[v] == "ABCDEFGHIJKLMNOPQRSTUVWXYZ"[v - 10];
    } else {
      assert BASE62_ALPHABET[v] == "abcdefghijklmnopqrstuvwxyz"[v - 36];
    }
  }

  /** strings.IndexByte(base62Alphabet, c), None for -1. */
  function DigitValue(c: char): (v: Option<nat>)
    ensures v.Some? ==> v.value < 62 && Digit(v.value) == c
  {
    if '0' <= c <= '9' then Some((c - '0') as nat)
    else if 'A' <= c <= 'Z' then Some((c - 'A') as nat + 10)
    else if 'a' <= c <= 'z' then Some((c - 'a') as nat + 36)
    else None
  }

  predicate Base62(s: string) {
    forall i :: 0 <= i < |s| ==> DigitValue(s[i]).Some?
  }

  /** What a base62 string says, least significant digit last. */
  function Decode(s: string): nat
    requires Base62(s)
  {
    if s == [] then 0 else Decode(s[..|s| - 1]) * 62 + DigitValue(s[|s| - 1]).value
  }

  function Reverse(s: string): string {
    if s == [] then [] else Reverse(s[1..]) + [s[0]]
  }

  /** Least significant digit first, as the encoder produces them. */
  function Little(s: string): nat
    requires Base62(s)
  {
    if s == [] then 0 else DigitValue(s[0]).value + 62 * Little(s[1..])
  }

  lemma {:induction false} LittleAppend(s: string, c: char)
    requires Base62(s) && DigitValue(c).Some?
    ensures Base62(s + [c]) && Little(s + [c]) == Little(s) + Pow(62, |s|) * DigitValue(c).value
  {
    if s == [] {
      assert s + [c] == [c] && Little([]) == 0;
      assert Little([c][1..]) == 0;
    } else {
      hide DigitValue;
      assert (s + [c])[1..] == s[1..] + [c];
      LittleAppend(s[1..], c);
      Regroup(Pow(62, |s| - 1), DigitValue(c).value);
    }
  }

  lemma Regroup(p: int, d: int)
    ensures 62 * (p * d) == (62 * p) * d
  {
  }

  /** Backwards is what the last loop of the encoder produces. */
  predicate Backwards(r: string, s: string) {
    |r| == |s| && forall k :: 0 <= k < |r| ==> r[k] == s[|s| - 1 - k]
  }

  lemma {:induction false} DecodeBackwards(r: string, s: string)
    requires Backwards(r, s) && Base62(s)
    ensures Base62(r) && Decode(r) == Little(s)
  {
    if s != [] {
      assert Backwards(r[..|r| - 1], s[1..]);
      DecodeBackwards(r[..|r| - 1], s[1..]);
    }
  }

  lemma {:induction false} PowMonotone(b: nat, d: nat, e: nat)
    requires b > 0 && d <= e
    ensures 0 < Pow(b, d) <= Pow(b, e)
    decreases e
  {
    if d < e {
      PowMonotone(b, d, e - 1);
      assert Pow(b, e - 1) <= b * Pow(b, e - 1);
    } else if e > 0 {
      PowMonotone(b, d - 1, e - 1);
      assert 0 < b * Pow(b, e - 1);
    }
  }

  lemma MoveDigit(p: nat, n: nat)
    requires p > 0 && n > 0
    ensures p * n == p * (n % 62) + (62 * p) * (n / 62) && p * n >= p
  {
    var q, d := n / 62, n % 62;
    assert n == 62 * q + d;
    calc {
      p * n;
      p * (62 * q + d);
      p * (62 * q) + p * d;
      (62 * p) * q + p * d;
    }
    MulGrows(p, n);
  }

  lemma MulGrows(p: nat, n: nat)
    requires n > 0
    ensures p * n >= p
  {
  }

  /** One division: the digit moves from the number to the end of the output. */
  lemma DivisionStep(total: nat, out: string, n: nat)
    requires Base62(out) && n > 0 && total == Little(out) + Pow(62, |out|) * n
    ensures Base62(out + [Digit(n % 62)])
    ensures total == Little(out + [Digit(n % 62)]) + Pow(62, |out| + 1) * (n / 62)
    ensures total >= Pow(62, |out|)
  {
    assert DigitValue(Digit(n % 62)) == Some(n % 62);
    LittleAppend(out, Digit(n % 62));
    PowMonotone(62, 0, |out|);
    MoveDigit(Pow(62, |out|), n);
    assert Pow(62, |out| + 1) == 62 * Pow(62, |out|);
  }

  lemma {:induction false} LittleBound(s: string)
    requires Base62(s)
    ensures Little(s) < Pow(62, |s|)
  {
    if s != [] {
      LittleBound(s[1..]);
    }
  }

  /** The encoder's last loop, which swaps from both ends in place. */
  method ReverseDigits(digits: string) returns (out: string)
    ensures Backwards(out, digits)
  {
    out := digits;
    var i, j := 0, |out| - 1;
    while i < j
      invariant 0 <= i <= |out| && j == |digits| - 1 - i && |out| == |digits| && i <= j + 1
      invariant forall k :: 0 <= k < i ==> out[k] == digits[|digits| - 1 - k] && out[|digits| - 1 - k] == digits[k]
      invariant forall k :: i <= k <= j ==> out[k] == digits[k]
    {
      out := out[i := out[j]][j := out[i]];
      i, j := i + 1, j - 1;
    }
  }

  lemma NothingYet(total: nat)
    ensures Base62([]) && total == Little([]) + Pow(62, 0) * total
  {
  }

  lemma PadDigit(out: string)
    requires Base62(out)
    ensures Base62(out + ['0']) && Little(out + ['0']) == Little(out)
  {
    LittleAppend(out, '0');
  }

  /** Renders b in base62, left-padded with '0' to width. */
  method EncodeBase62(b: seq<byte>, width: nat) returns (r: string)
    ensures Base62(r) && Decode(r) == Number(b)
    ensures Number(b) < Pow(62, width) <==> |r| == width
    ensures |r| >= width
  {
    hide Number, Decode, Little, Pow, DigitValue, Base62;
    var n := Number(b);
    var out: string := [];
    NothingYet(n);
    while n > 0
      invariant Base62(out) && Number(b) == Little(out) + Pow(62, |out|) * n
      invariant out != [] ==> Number(b) >= Pow(62, |out| - 1)
      invariant n == 0 ==> Number(b) == Little(out)
      decreases n
    {
      DivisionStep(Number(b), out, n);
      AlphabetIsDigits(n % 62);
      out := out + [BASE62_ALPHABET[n % 62]];
      n := n / 62;
    }
    while |out| < width
      invariant Base62(out) && Number(b) == Little(out)
      invariant |out| > width ==> Number(b) >= Pow(62, |out| - 1)
      decreases width - |out|
    {
      PadDigit(out);
      out := out + ['0'];
    }
    // Digits were produced least significant first.
    r := ReverseDigits(out);
    DecodeBackwards(r, out);
    LittleBound(out);
    if |r| > width {
      PowMonotone(62, width, |r| - 1);
    }
  }

  lemma {:induction false} NumberBound(b: seq<byte>)
    ensures Number(b) < Pow(256, |b|)
  {
    if b != [] {
      NumberBound(b[..|b| - 1]);
    }
  }

  lemma {:induction false} NumberInjective(a: seq<byte>, b: seq<byte>)
    requires |a| == |b| && Number(a) == Number(b)
    ensures a == b
  {
    if a != [] {
      var last := |a| - 1;
      NumberInjective(a[..last], b[..last]);
      assert a == a[..last] + [a[last]] && b == b[..last] + [b[last]];
    }
  }

  lemma {:induction false} PowAdd(b: nat, d: nat, e: nat)
    ensures Pow(b, d + e) == Pow(b, d) * Pow(b, e)
  {
    if d > 0 {
      PowAdd(b, d - 1, e);
      assert b * (Pow(b, d - 1) * Pow(b, e)) == Pow(b, d) * Pow(b, e);
    }
  }

  lemma Compose(b: nat, d: nat, x: nat, e: nat, y: nat)
    requires Pow(b, d) == x && Pow(b, e) == y
    ensures Pow(b, d + e) == x * y
  {
    PowAdd(b, d, e);
  }

  lemma PowersOf62()
    ensures Pow(62, 42) == 1907440321293807005218825134272276737461586370979700379485518568438569631744
  {
    Compose(62, 1, 62, 1, 62);
    Compose(62, 2, 3844, 2, 3844);
    Compose(62, 4, 14776336, 4, 14776336);
    Compose(62, 8, 218340105584896, 8, 218340105584896);
    Compose(62, 16, 47672401706823533450263330816, 16, 47672401706823533450263330816);
    Compose(62, 8, 218340105584896, 2, 3844);
    Compose(62, 32, 2272657884496751345355241563627544170162852933518655225856, 10, 839299365868340224);
  }

  lemma PowersOf256()
    ensures Pow(256, 32) == 115792089237316195423570985008687907853269984665640564039457584007913129639936
  {
    Compose(256, 1, 256, 1, 256);
    Compose(256, 2, 65536, 2, 65536);
    Compose(256, 4, 4294967296, 4, 4294967296);
    Compose(256, 8, 18446744073709551616, 8, 18446744073709551616);
    Compose(256, 16, 340282366920938463463374607431768211456, 16, 340282366920938463463374607431768211456);
  }

  /** 43 digits hold 32 bytes, and 42 do not: the width is exact. */
  lemma WidthIsExact()
    ensures Pow(62, API_KEY_BODY_LEN - 1) < Pow(256, 32) < Pow(62, API_KEY_BODY_LEN)
  {
    PowersOf62();
    PowersOf256();
  }

  /** Every 32 bytes encode to 43 digits that decode to the same bytes, so no two keys collide. */
  method EncodeKeyBody(b: seq<byte>) returns (r: string)
    requires |b| == 32
    ensures |r| == API_KEY_BODY_LEN && Base62(r) && Decode(r) == Number(b)
    ensures forall other: seq<byte> :: |other| == 32 && Number(other) == Decode(r) ==> other == b
  {
    NumberBound(b);
    WidthIsExact();
    r := EncodeBase62(b, API_KEY_BODY_LEN);
    forall other: seq<byte> | |other| == 32 && Number(other) == Decode(r) ensures other == b {
      NumberInjective(other, b);
    }
  }

  predicate LooksLikeSpec(s: string) {
    |s| == |API_KEY_PREFIX| + API_KEY_BODY_LEN && API_KEY_PREFIX <= s && Base62(s[|API_KEY_PREFIX|..])
  }

  method LooksLikeAPIKey(s: string) returns (yes: bool)
    ensures yes <==> LooksLikeSpec(s)
  {
    if !(API_KEY_PREFIX <= s) {
      return false;
    }
    var body := s[|API_KEY_PREFIX|..];
    if |body| != API_KEY_BODY_LEN {
      return false;
    }
    for i := 0 to |body|
      invariant forall k :: 0 <= k < i ==> DigitValue(body[k]).Some?
    {
      if DigitValue(body[i]).None? {
        return false;
      }
    }
    yes := true;
  }

  /** What looks like a key is the prefix and 43 letters and digits, nothing else. */
  lemma LooksLikeExactly(s: string)
    ensures LooksLikeSpec(s) <==>
            |s| == 47 && s[..4] == "osk_"
            && forall i :: 4 <= i < 47 ==> '0' <= s[i] <= '9' || 'A' <= s[i] <= 'Z' || 'a' <= s[i] <= 'z'
  {
    assert |s| == 47 ==> forall i :: 4 <= i < 47 ==> s[4..][i - 4] == s[i];
  }

  function APIKeyDisplayPrefix(raw: string): string {
    if |raw| <= |API_KEY_PREFIX| + API_KEY_DISPLAY_LEN then raw else raw[..|API_KEY_PREFIX| + API_KEY_DISPLAY_LEN]
  }

  /** The bytes are the random source's; hashing the key is left to an ideal hash. */
  method GenerateAPIKey(b: seq<byte>) returns (raw: string, display: string)
    requires |b| == 32
    ensures LooksLikeSpec(raw) && Decode(raw[|API_KEY_PREFIX|..]) == Number(b)
    ensures display == raw[..|API_KEY_PREFIX| + API_KEY_DISPLAY_LEN]
  {
    var body := EncodeKeyBody(b);
    raw := API_KEY_PREFIX + body;
    assert raw[|API_KEY_PREFIX|..] == body;
    display := APIKeyDisplayPrefix(raw);
  }

  /** Keys of different bytes differ: what both decode to determines the bytes. */
  lemma KeysDiffer(a: seq<byte>, b: seq<byte>, keyA: string, keyB: string)
    requires |a| == |b| == 32 && LooksLikeSpec(keyA) && LooksLikeSpec(keyB)
    requires Decode(keyA[|API_KEY_PREFIX|..]) == Number(a) && Decode(keyB[|API_KEY_PREFIX|..]) == Number(b)
    ensures keyA == keyB ==> a == b
  {
    if keyA == keyB {
      NumberInjective(a, b);
    }
  }
}
