/** The two base64 codecs: src/base64.c and the one in src/crypto.c (section 3 of RFC 3548). */
module Base64 {
  import opened Options

  type Byte = b: int | 0 <= b < 256
  type Bytes = seq<Byte>

  const PAD: Byte := 61

  // ----- The alphabet -----

  function Letter(v: int): Byte
    requires 0 <= v < 64
  {
    if v < 26 then 65 + v
    else if v < 52 then 97 + v - 26
    else if v < 62 then 48 + v - 52
    else if v == 62 then 43
    else 47
  }

  /** b64_val, and the table b64 */
  function Value(c: Byte): int {
    if 65 <= c <= 90 then c - 65
    else if 97 <= c <= 122 then c - 97 + 26
    else if 48 <= c <= 57 then c - 48 + 52
    else if c == 43 then 62
    else if c == 47 then 63
    else -1
  }

  lemma AlphabetExact(v: int, c: Byte)
    requires 0 <= v < 64
    ensures Value(Letter(v)) == v && Letter(v) != PAD && Value(PAD) == -1
    ensures Value(c) >= 0 ==> Value(c) < 64 && Letter(Value(c)) == c
  {
  }

  const CAPITALS: string := "ABCDEFGHIJKLMNOPQRSTUVWXYZ"
  const SMALL: string := "abcdefghijklmnopqrstuvwxyz"
  const DIGITS: string := "0123456789"

  /** The string of 64 letters */
  const ALPHABET: string := CAPITALS + SMALL + DIGITS + "+/"

  lemma RowsAscend(k: int)
    ensures 0 <= k < 26 ==> CAPITALS[k] as int == 65 + k && SMALL[k] as int == 97 + k
    ensures 0 <= k < 10 ==> DIGITS[k] as int == 48 + k
  {
  }

  /** A letter is the character of the alphabet at its value. */
  lemma LettersAreAlphabet(v: int)
    requires 0 <= v < 64
    ensures |ALPHABET| == 64 && Letter(v) == ALPHABET[v] as int
  {
    if v < 26 {
      RowsAscend(v);
    } else if v < 52 {
      RowsAscend(v - 26);
    } else if v < 62 {
      RowsAscend(v - 52);
    }
  }

  // ----- What is encoded -----

  /** The four characters for the first one, two or three bytes */
  function Quad(bs: Bytes): (q: Bytes)
    requires bs != []
    ensures |q| == 4
  {
    var a := bs[0];
    if |bs| == 1 then [Letter(a / 4), Letter(a % 4 * 16), PAD, PAD]
    else
      var b := bs[1];
      if |bs| == 2 then [Letter(a / 4), Letter(a % 4 * 16 + b / 16), Letter(b % 16 * 4), PAD]
      else
        var c := bs[2];
        [Letter(a / 4), Letter(a % 4 * 16 + b / 16), Letter(b % 16 * 4 + c / 64), Letter(c % 64)]
  }

  /** The values of a quad, read as digits of base 64, are the bytes read as digits of base 256, with
      zero bits at the end for missing bytes. */
  lemma QuadIsNumber(bs: Bytes)
    requires bs != []
    ensures var q := Quad(bs);
      var v0, v1, v2, v3 := Value(q[0]), Value(q[1]), Value(q[2]), Value(q[3]);
      if |bs| == 1 then v0 * 64 + v1 == bs[0] as int * 16 && q[2..] == ['=' as int, '=' as int]
      else if |bs| == 2 then v0 * 4096 + v1 * 64 + v2 == (bs[0] as int * 256 + bs[1]) * 4 && q[3] == '=' as int
      else v0 * 262144 + v1 * 4096 + v2 * 64 + v3 == bs[0] as int * 65536 + bs[1] as int * 256 + bs[2]
  {
    var a: int := bs[0];
    assert a == a / 4 * 4 + a % 4;
    if |bs| == 1 {
      AlphabetExact(a / 4, PAD);
      AlphabetExact(a % 4 * 16, PAD);
    } else {
      var b: int := bs[1];
      assert b == b / 16 * 16 + b % 16;
      AlphabetExact(a / 4, PAD);
      AlphabetExact(a % 4 * 16 + b / 16, PAD);
      if |bs| == 2 {
        AlphabetExact(b % 16 * 4, PAD);
      } else {
        var c: int := bs[2];
        assert c == c / 64 * 64 + c % 64;
        AlphabetExact(b % 16 * 4 + c / 64, PAD);
        AlphabetExact(c % 64, PAD);
      }
    }
  }

  function Rest(bs: Bytes): Bytes
    requires bs != []
  {
    if |bs| <= 3 then [] else bs[3..]
  }

  function Encode(bs: Bytes): (s: Bytes)
    ensures |s| == (|bs| + 2) / 3 * 4
    decreases |bs|
  {
    if bs == [] then [] else Quad(bs) + Encode(Rest(bs))
  }

  // ----- What is accepted and decoded -----

  /** The first quad of a text, when it is one; padding only at the very end */
  predicate QuadOk(s: Bytes) {
    |s| >= 4 && Value(s[0]) >= 0 && Value(s[1]) >= 0 &&
    if s[2] == PAD then |s| == 4 && s[3] == PAD
    else Value(s[2]) >= 0 && if s[3] == PAD then |s| == 4 else Value(s[3]) >= 0
  }

  predicate Accepted(s: Bytes)
    decreases |s|
  {
    s == [] || (QuadOk(s) && Accepted(s[4..]))
  }

  function First(s: Bytes): Byte
    requires |s| >= 2 && Value(s[0]) >= 0 && Value(s[1]) >= 0
  {
    Value(s[0]) * 4 % 256 + Value(s[1]) / 16
  }

  function Second(s: Bytes): Byte
    requires |s| >= 3 && Value(s[1]) >= 0 && Value(s[2]) >= 0
  {
    var v := Value(s[1]) * 16 % 256;
    assert v % 16 == 0;
    v + Value(s[2]) / 4
  }

  function Third(s: Bytes): Byte
    requires |s| >= 4 && Value(s[2]) >= 0 && Value(s[3]) >= 0
  {
    Value(s[2]) * 64 % 256 + Value(s[3])
  }

  function UnQuad(s: Bytes): (bs: Bytes)
    requires QuadOk(s)
    ensures 1 <= |bs| <= 3
  {
    if s[2] == PAD then [First(s)]
    else if s[3] == PAD then [First(s), Second(s)]
    else [First(s), Second(s), Third(s)]
  }

  function Decode(s: Bytes): Bytes
    requires Accepted(s)
    decreases |s|
  {
    if s == [] then [] else UnQuad(s) + Decode(s[4..])
  }

  /** Accepted texts, said without the loop: whole quads of letters, of which the last one or two may
      be padding. */
  ghost predicate Padded(s: Bytes, pad: nat) {
    |s| % 4 == 0 && pad <= 2 && pad <= |s| &&
    (forall i :: 0 <= i < |s| - pad ==> Value(s[i]) >= 0) && (forall i :: |s| - pad <= i < |s| ==> s[i] == PAD)
  }

  lemma {:induction false} AcceptedIsPadded(s: Bytes)
    ensures Accepted(s) <==> exists pad: nat :: Padded(s, pad)
    decreases |s|
  {
    if s == [] {
      assert Padded(s, 0);
    } else if |s| >= 4 {
      AcceptedIsPadded(s[4..]);
      if Accepted(s) {
        if |s| == 4 {
          assert Padded(s, if s[2] == PAD then 2 else if s[3] == PAD then 1 else 0);
        } else {
          var pad: nat :| Padded(s[4..], pad);
          forall i | 0 <= i < |s| - pad ensures Value(s[i]) >= 0 {
            assert i >= 4 ==> s[i] == s[4..][i - 4];
          }
          forall i | |s| - pad <= i < |s| ensures s[i] == PAD {
            assert s[i] == s[4..][i - 4];
          }
          assert Padded(s, pad);
        }
      }
      if pad: nat :| Padded(s, pad) {
        if |s| > 4 {
          forall i | 0 <= i < |s| - 4 - pad ensures Value(s[4..][i]) >= 0 {
            assert s[4..][i] == s[i + 4];
          }
          assert Padded(s[4..], pad);
          assert Value(s[2]) >= 0 && Value(s[3]) >= 0;
        } else {
          assert s[4..] == [];
        }
      }
    }
  }

  // ----- Round trip -----

  /** The three bytes cut into four sextets and put together again; y and z are what follows. */
  lemma FirstBack(a: Byte, y: int)
    requires 0 <= y < 16
    ensures a / 4 * 4 % 256 + (a % 4 * 16 + y) / 16 == a
  {
  }

  lemma SecondBack(x: int, b: Byte, z: int)
    requires 0 <= x < 4 && 0 <= z < 4
    ensures (x * 16 + b / 16) * 16 % 256 + (b % 16 * 4 + z) / 4 == b
  {
    assert (x * 16 + b / 16) * 16 % 256 == b / 16 * 16;
  }

  lemma ThirdBack(y: int, c: Byte)
    requires 0 <= y < 16
    ensures (y * 4 + c / 64) * 64 % 256 + c % 64 == c
  {
    assert (y * 4 + c / 64) * 64 % 256 == c / 64 * 64;
  }

  lemma LetterBack(v: int)
    requires 0 <= v < 64
    ensures Value(Letter(v)) == v && Letter(v) != PAD
  {
    AlphabetExact(v, PAD);
  }

  lemma OneBack(a: Byte, s: Bytes)
    requires |s| == 4 && s == Quad([a])
    ensures QuadOk(s) && UnQuad(s) == [a]
  {
    LetterBack(a / 4);
    LetterBack(a % 4 * 16);
    FirstBack(a, 0);
  }

  lemma TwoBack(a: Byte, b: Byte, s: Bytes)
    requires |s| == 4 && s == Quad([a, b])
    ensures QuadOk(s) && UnQuad(s) == [a, b]
  {
    LetterBack(a / 4);
    LetterBack(a % 4 * 16 + b / 16);
    LetterBack(b % 16 * 4);
    FirstBack(a, b / 16);
    SecondBack(a % 4, b, 0);
  }

  lemma ThreeBack(a: Byte, b: Byte, c: Byte, s: Bytes)
    requires |s| >= 4 && s[..4] == Quad([a, b, c])
    ensures QuadOk(s) && UnQuad(s) == [a, b, c]
  {
    var q := Quad([a, b, c]);
    assert s[0] == s[..4][0] && s[1] == s[..4][1] && s[2] == s[..4][2] && s[3] == s[..4][3];
    LetterBack(a / 4);
    LetterBack(a % 4 * 16 + b / 16);
    LetterBack(b % 16 * 4 + c / 64);
    LetterBack(c % 64);
    FirstBack(a, b / 16);
    SecondBack(a % 4, b, c / 64);
    ThirdBack(b % 16, c);
  }

  lemma QuadRoundTrip(bs: Bytes, tail: Bytes)
    requires bs != [] && (|bs| < 3 ==> tail == [])
    ensures QuadOk(Quad(bs) + tail) && UnQuad(Quad(bs) + tail) == if |bs| <= 3 then bs else bs[..3]
  {
    var s := Quad(bs) + tail;
    assert s[..4] == Quad(bs);
    if |bs| == 1 {
      assert bs == [bs[0]] && s == Quad(bs);
      OneBack(bs[0], s);
    } else if |bs| == 2 {
      assert bs == [bs[0], bs[1]] && s == Quad(bs);
      TwoBack(bs[0], bs[1], s);
    } else {
      assert Quad(bs) == Quad([bs[0], bs[1], bs[2]]);
      ThreeBack(bs[0], bs[1], bs[2], s);
      assert bs[..3] == [bs[0], bs[1], bs[2]];
    }
  }

  /** For every byte string: what is encoded is accepted, and decoding gives the bytes back. */
  lemma {:induction false} RoundTrip(bs: Bytes)
    ensures Accepted(Encode(bs)) && Decode(Encode(bs)) == bs
    decreases |bs|
  {
    if bs != [] {
      RoundTrip(Rest(bs));
      QuadRoundTrip(bs, Encode(Rest(bs)));
      assert Encode(bs)[4..] == Encode(Rest(bs));
      if |bs| > 3 {
        assert bs == bs[..3] + bs[3..];
      }
    }
  }

  // ----- base64_encode -----

  function Min(a: nat, b: nat): nat {
    if a < b then a else b
  }

  /** The text so far and the bytes still to come make up the whole. */
  ghost predicate Split(input: Bytes, i: nat, o: nat) {
    i <= |input| && o <= |Encode(input)| && Encode(input)[o..] == Encode(input[i..])
  }

  lemma SplitStep(input: Bytes, i: nat, o: nat)
    requires Split(input, i, o) && i < |input|
    ensures var rest := input[i..];
      o + 4 <= |Encode(input)| && Encode(input)[o..o + 4] == Quad(rest) && Split(input, Min(i + 3, |input|), o + 4)
  {
    var rest, e := input[i..], Encode(input);
    assert e[o..] == Quad(rest) + Encode(Rest(rest));
    assert e[o..o + 4] == e[o..][..4];
    assert e[o + 4..] == e[o..][4..];
    assert Rest(rest) == input[Min(i + 3, |input|)..];
  }

  /** The shifts and masks of base64_encode cut out the same sextets. */
  lemma ShiftsAre(a: Byte, b: Byte, c: Byte)
    ensures a / 4 % 64 == a / 4
    ensures (a * 16 + b / 16) % 64 == a % 4 * 16 + b / 16 && a * 16 % 64 == a % 4 * 16
    ensures (b * 4 + c / 64) % 64 == b % 16 * 4 + c / 64 && b * 4 % 64 == b % 16 * 4
  {
  }

  /** The four characters that one turn of base64_encode's loop writes */
  method QuadOf(input: Bytes, i: nat) returns (q: Bytes)
    requires i < |input|
    ensures q == Quad(input[i..])
  {
    var left := |input| - i;
    var a: int := input[i];
    var b: int := if left > 1 then input[i + 1] else 0;
    var c: int := if left > 2 then input[i + 2] else 0;
    ShiftsAre(a, b, c);
    q := [Letter(a / 4 % 64),
          Letter((a * 16 + if left > 1 then b / 16 else 0) % 64),
          if left > 1 then Letter((b * 4 + if left > 2 then c / 64 else 0) % 64) else PAD,
          if left > 2 then Letter(c % 64) else PAD];
  }

  /** The four writes, each followed by the test whether there is room for another */
  method PutQuad(q: Bytes, out: array<Byte>, o: nat, outlen: nat) returns (n: nat)
    requires |q| == 4 && o < outlen <= out.Length
    modifies out
    ensures n == Min(o + 4, outlen)
    ensures forall k :: o <= k < n ==> out[k] == q[k - o]
    ensures forall k :: 0 <= k < out.Length && !(o <= k < n) ==> out[k] == old(out[k])
  {
    out[o] := q[0];
    if o + 1 == outlen {
      return o + 1;
    }
    out[o + 1] := q[1];
    if o + 2 == outlen {
      return o + 2;
    }
    out[o + 2] := q[2];
    if o + 3 == outlen {
      return o + 3;
    }
    out[o + 3] := q[3];
    return o + 4;
  }

  /** base64_encode: as much of the text as fits, and a zero byte if there is room for one more */
  method EncodeInto(input: Bytes, out: array<Byte>, outlen: nat)
    requires outlen <= out.Length
    modifies out
    ensures var e := Encode(input);
      var n := Min(|e|, outlen);
      (forall k :: 0 <= k < n ==> out[k] == e[k]) && (outlen > |e| ==> out[|e|] == 0) &&
      forall k :: n <= k < out.Length && !(k == |e| < outlen) ==> out[k] == old(out[k])
  {
    var i, o := 0, 0;
    ghost var e := Encode(input);
    assert input[0..] == input && e[0..] == e;
    while i < |input| && o < outlen
      invariant 0 <= o <= outlen && 0 <= i <= |input| && o <= |e|
      invariant o < outlen ==> Split(input, i, o) == true
      invariant forall k :: 0 <= k < o ==> out[k] == e[k]
      invariant forall k :: o <= k < out.Length ==> out[k] == old(out[k])
      decreases |input| - i
    {
      SplitStep(input, i, o);
      var q := QuadOf(input, i);
      assert forall k :: o <= k < o + 4 ==> e[k] == e[o..o + 4][k - o];
      o := PutQuad(q, out, o, outlen);
      i := Min(i + 3, |input|);
    }
    if o < outlen {
      assert input[i..] == [];
      assert |e[o..]| == 0;
      out[o] := 0;
    }
  }

  // ----- crypto_b64_encode -----

  ghost predicate Begun(input: Bytes, text: Bytes, o: nat) {
    o <= |Encode(input)| && o <= |text| && forall k :: 0 <= k < o ==> text[k] == Encode(input)[k]
  }

  method PutNext(q: Bytes, ghost input: Bytes, ghost i: nat, out: array<Byte>, o: nat) returns (n: nat)
    requires Split(input, i, o) == true && i < |input| && q == Quad(input[i..]) && |Encode(input)| < out.Length && Begun(input, out[..], o)
    modifies out
    ensures n == o + 4 && Split(input, Min(i + 3, |input|), n) == true && Begun(input, out[..], n) == true
  {
    SplitStep(input, i, o);
    ghost var e := Encode(input);
    assert forall k :: o <= k < o + 4 ==> e[k] == e[o..o + 4][k - o];
    ghost var before := out[..];
    n := PutQuad(q, out, o, out.Length);
    assert forall k :: 0 <= k < o ==> out[..][k] == before[k];
  }

  /** crypto_b64_encode: the same text, and a zero byte */
  method CryptoEncode(input: Bytes, out: array<Byte>) returns (o: nat)
    requires |Encode(input)| < out.Length
    modifies out
    ensures o == |Encode(input)| && out[o] == 0 && out[..o] == Encode(input)
  {
    var i: nat := 0;
    o := 0;
    assert input[0..] == input && Encode(input)[0..] == Encode(input);
    while i + 2 < |input|
      invariant i <= |input| && Split(input, i, o) == true && Begun(input, out[..], o) == true
      decreases |input| - i
    {
      var q := CryptoQuad(input[i], input[i + 1], input[i + 2]);
      assert q == Quad(input[i..]);
      o := PutNext(q, input, i, out, o);
      i := i + 3;
    }
    if i < |input| {
      var q := CryptoTail(input[i..]);
      o := PutNext(q, input, i, out, o);
      i := |input|;
    }
    SplitEnd(input, o);
    assert out[..o] == Encode(input);
    out[o] := 0;
  }

  lemma SplitEnd(input: Bytes, o: nat)
    requires Split(input, |input|, o) == true
    ensures o == |Encode(input)|
  {
    assert input[|input|..] == [];
    assert |Encode(input)[o..]| == 0;
  }

  /** The masks of crypto_b64_encode take nothing away. */
  lemma MasksAre(a: Byte)
    ensures a / 4 % 64 == a / 4 && a / 16 % 16 == a / 16 && a / 64 % 4 == a / 64
  {
  }

  method CryptoQuad(a: Byte, b: Byte, c: Byte) returns (q: Bytes)
    ensures q == Quad([a, b, c])
  {
    MasksAre(a);
    MasksAre(b);
    MasksAre(c);
    q := [Letter(a / 4 % 64), Letter(a % 4 * 16 + b / 16 % 16), Letter(b % 16 * 4 + c / 64 % 4), Letter(c % 64)];
  }

  method CryptoTail(rest: Bytes) returns (q: Bytes)
    requires 1 <= |rest| <= 2
    ensures q == Quad(rest)
  {
    var a := rest[0];
    if |rest| == 2 {
      q := [Letter(a / 4 % 64), Letter(a % 4 * 16 + rest[1] / 16 % 16), Letter(rest[1] % 16 * 4), PAD];
    } else {
      q := [Letter(a / 4 % 64), Letter(a % 4 * 16), PAD, PAD];
    }
  }

  // ----- base64_decode -----

  /** The bytes of `bs` that fit go to out[o..]. */
  ghost predicate Put(before: Bytes, after: Bytes, o: nat, n: nat, outlen: nat, bs: Bytes) {
    && |before| == |after| && o <= n == Min(o + |bs|, outlen) && outlen <= |after|
    && (forall k :: o <= k < n ==> after[k] == bs[k - o])
    && (forall k :: 0 <= k < |after| && !(o <= k < n) ==> after[k] == before[k])
  }

  method PutByte(b: Byte, out: array<Byte>, o: nat, outlen: nat) returns (n: nat)
    requires o <= outlen <= out.Length
    modifies out
    ensures Put(old(out[..]), out[..], o, n, outlen, [b])
  {
    if o < outlen {
      out[o] := b;
      return o + 1;
    }
    return o;
  }

  lemma PutPut(x: Bytes, y: Bytes, z: Bytes, o: nat, n: nat, m: nat, outlen: nat, bs: Bytes, b: Byte)
    requires Put(x, y, o, n, outlen, bs) && Put(y, z, n, m, outlen, [b])
    ensures Put(x, z, o, m, outlen, bs + [b])
  {
  }

  /** One turn of base64_decode's loop on what is left of the input; false when it breaks out */
  method DecodeTurn(s: Bytes, out: array<Byte>, o: nat, outlen: nat) returns (good: bool, n: nat)
    requires |s| >= 2 && o <= outlen <= out.Length
    modifies out
    ensures good == QuadOk(s) && o <= n <= outlen
    ensures good ==> Put(old(out[..]), out[..], o, n, outlen, UnQuad(s)) == true
    ensures forall k :: 0 <= k < out.Length && !(o <= k < n) ==> out[k] == old(out[k])
  {
    good, n := false, o;
    if Value(s[0]) < 0 || Value(s[1]) < 0 {
      return;
    }
    ghost var x := out[..];
    n := PutByte(First(s), out, n, outlen);
    ghost var y, n1 := out[..], n;
    if |s| == 2 {
      return;
    }
    if s[2] == PAD {
      return |s| == 4 && s[3] == PAD, n;
    }
    if Value(s[2]) < 0 {
      return;
    }
    n := PutByte(Second(s), out, n, outlen);
    PutPut(x, y, out[..], o, n1, n, outlen, [First(s)], Second(s));
    ghost var u, n2 := out[..], n;
    assert [First(s)] + [Second(s)] == [First(s), Second(s)];
    if |s| == 3 {
      return;
    }
    if s[3] == PAD {
      return |s| == 4, n;
    }
    if Value(s[3]) < 0 {
      return;
    }
    n := PutByte(Third(s), out, n, outlen);
    PutPut(x, u, out[..], o, n2, n, outlen, [First(s), Second(s)], Third(s));
    assert [First(s), Second(s)] + [Third(s)] == UnQuad(s);
    good := true;
  }

  /** `done` has been decoded, and the rest of the input decides. */
  ghost predicate Decoding(input: Bytes, i: nat, done: Bytes) {
    i <= |input| && (Accepted(input) <==> Accepted(input[i..])) && (Accepted(input) ==> Decode(input) == done + Decode(input[i..]))
  }

  lemma DecodingStep(input: Bytes, i: nat, done: Bytes)
    requires Decoding(input, i, done) && i < |input|
    ensures QuadOk(input[i..]) ==> i + 4 <= |input| && Decoding(input, i + 4, done + UnQuad(input[i..]))
    ensures !QuadOk(input[i..]) ==> !Accepted(input)
  {
    var s := input[i..];
    if QuadOk(s) {
      assert s[4..] == input[i + 4..];
      if Accepted(input) {
        assert Decode(s) == UnQuad(s) + Decode(s[4..]);
        assert done + (UnQuad(s) + Decode(s[4..])) == done + UnQuad(s) + Decode(s[4..]);
      }
    }
  }

  ghost predicate Filled(text: Bytes, o: nat, outlen: nat, done: Bytes) {
    o == Min(|done|, outlen) && o <= |text| && forall k :: 0 <= k < o ==> text[k] == done[k]
  }

  lemma FilledStep(x: Bytes, y: Bytes, o: nat, n: nat, outlen: nat, done: Bytes, bs: Bytes)
    requires Filled(x, o, outlen, done) && Put(x, y, o, n, outlen, bs)
    ensures Filled(y, n, outlen, done + bs)
  {
  }

  /** base64_decode: true exactly on accepted texts; then the output is as much of the decoded bytes
      as there is room for. */
  method DecodeInto(input: Bytes, out: array<Byte>, outlen: nat) returns (ok: bool, n: nat)
    requires outlen <= out.Length
    modifies out
    ensures ok == Accepted(input) && n <= outlen
    ensures ok ==> n == Min(|Decode(input)|, outlen) && out[..n] == Decode(input)[..n]
    ensures forall k :: n <= k < out.Length ==> out[k] == old(out[k])
  {
    var i: nat := 0;
    n := 0;
    ghost var done: Bytes := [];
    assert input[0..] == input;
    while |input| - i >= 2
      invariant 0 <= i <= |input| && n <= outlen
      invariant Decoding(input, i, done) == true && Filled(out[..], n, outlen, done) == true
      invariant forall k :: n <= k < out.Length ==> out[k] == old(out[k])
      decreases |input| - i
    {
      DecodingStep(input, i, done);
      ghost var x, o := out[..], n;
      var good;
      good, n := DecodeTurn(input[i..], out, n, outlen);
      if !good {
        return false, n;
      }
      FilledStep(x, out[..], o, n, outlen, done, UnQuad(input[i..]));
      done := done + UnQuad(input[i..]);
      i := i + 4;
    }
    ok := i == |input|;
    if ok {
      assert input[i..] == [];
      assert out[..n] == done[..n];
    } else {
      DecodingStep(input, i, done);
    }
  }

  // ----- crypto_b64_decode -----

  /** One quad as crypto_b64_decode sees it: its bytes and whether to go on, or None when a character
      is neither a letter nor padding */
  function Head(s: Bytes): (r: Option<(Bytes, bool)>)
    requires |s| >= 4
    ensures r.Some? ==> 1 <= |r.value.0| <= 3
  {
    if Value(s[0]) < 0 || Value(s[1]) < 0 then None
    else if s[2] == PAD then Some(([First(s)], false))
    else if Value(s[2]) < 0 then None
    else if s[3] == PAD then Some(([First(s), Second(s)], false))
    else if Value(s[3]) < 0 then None
    else Some(([First(s), Second(s), Third(s)], true))
  }

  /** What crypto_b64_decode makes of any text: it stops when the output is full, at padding, or when
      less than a quad is left. */
  function Loose(s: Bytes, room: nat): (r: Option<Bytes>)
    ensures r.Some? ==> |r.value| <= room
    decreases |s|
  {
    if |s| < 4 || room == 0 then Some([])
    else
      match Head(s)
      case None => None
      case Some((q, more)) =>
        var cut := q[..Min(|q|, room)];
        if !more then Some(cut)
        else
          match Loose(s[4..], room - |cut|)
          case None => None
          case Some(rest) => Some(cut + rest)
  }

  lemma TakeAppend(q: Bytes, d: Bytes, room: nat)
    ensures (q + d)[..Min(|q| + |d|, room)] == q[..Min(|q|, room)] + d[..Min(|d|, room - Min(|q|, room))]
  {
  }

  lemma HeadOfQuad(s: Bytes)
    requires QuadOk(s)
    ensures Head(s) == Some((UnQuad(s), s[2] != PAD && s[3] != PAD))
  {
  }

  lemma LooseIs(s: Bytes, room: nat, q: Bytes, d: Bytes, more: bool)
    requires |s| >= 4 && room > 0 && Head(s) == Some((q, more)) && (!more ==> d == [])
    requires more ==> Loose(s[4..], room - Min(|q|, room)) == Some(d[..Min(|d|, room - Min(|q|, room))])
    requires (q + d)[..Min(|q| + |d|, room)] == q[..Min(|q|, room)] + d[..Min(|d|, room - Min(|q|, room))]
    ensures Loose(s, room) == Some((q + d)[..Min(|q + d|, room)])
  {
    var cut := q[..Min(|q|, room)];
    if !more {
      assert q + d == q;
    }
  }

  /** On accepted texts the two decoders agree. */
  lemma {:induction false} LooseAgrees(s: Bytes, room: nat)
    requires Accepted(s)
    ensures Loose(s, room) == Some(Decode(s)[..Min(|Decode(s)|, room)])
    decreases |s|
  {
    if s != [] && room > 0 {
      var q, d := UnQuad(s), Decode(s[4..]);
      HeadOfQuad(s);
      TakeAppend(q, d, room);
      var more := s[2] != PAD && s[3] != PAD;
      if more {
        LooseAgrees(s[4..], room - Min(3, room));
      }
      LooseIs(s, room, q, d, more);
    }
  }

  method CryptoTurn(s: Bytes, out: array<Byte>, o: nat, outlen: nat) returns (r: Option<bool>, n: nat)
    requires |s| >= 4 && o < outlen <= out.Length
    modifies out
    ensures r.None? <==> Head(s).None?
    ensures r.Some? ==> r.value == Head(s).value.1 && Put(old(out[..]), out[..], o, n, outlen, Head(s).value.0) == true
  {
    n := o;
    if Value(s[0]) < 0 || Value(s[1]) < 0 {
      return None, n;
    }
    ghost var x := out[..];
    n := PutByte(First(s), out, n, outlen);
    ghost var y, n1 := out[..], n;
    if s[2] == PAD {
      return Some(false), n;
    }
    if Value(s[2]) < 0 {
      return None, n;
    }
    n := PutByte(Second(s), out, n, outlen);
    PutPut(x, y, out[..], o, n1, n, outlen, [First(s)], Second(s));
    assert [First(s)] + [Second(s)] == [First(s), Second(s)];
    ghost var u, n2 := out[..], n;
    if s[3] == PAD {
      return Some(false), n;
    }
    if Value(s[3]) < 0 {
      return None, n;
    }
    n := PutByte(Third(s), out, n, outlen);
    PutPut(x, u, out[..], o, n2, n, outlen, [First(s), Second(s)], Third(s));
    assert [First(s), Second(s)] + [Third(s)] == [First(s), Second(s), Third(s)];
    return Some(true), n;
  }

  /** The first k quads are letters throughout. */
  ghost predicate Letters(s: Bytes, k: nat) {
    4 * k <= |s| && forall i :: 0 <= i < 4 * k ==> Value(s[i]) >= 0
  }

  /** The k-th quad begins with something other than two letters, or goes on with something that is neither
      a letter nor padding. */
  predicate Broken(s: Bytes, k: nat) {
    4 * k + 4 <= |s| && (
      Value(s[4 * k]) < 0 || Value(s[4 * k + 1]) < 0 ||
      (s[4 * k + 2] != '=' as int && (Value(s[4 * k + 2]) < 0 || (s[4 * k + 3] != '=' as int && Value(s[4 * k + 3]) < 0))))
  }

  /** A broken quad comes after quads of letters, before the buffer is full. */
  ghost predicate Fails(s: Bytes, room: nat) {
    exists k: nat :: FailsAt(s, room, k)
  }

  ghost predicate FailsAt(s: Bytes, room: nat, k: nat) {
    Letters(s, k) && Broken(s, k) && 3 * k < room
  }

  lemma LettersStep(s: Bytes, k: nat)
    requires |s| >= 4 && Letters(s, 1)
    ensures Letters(s, k + 1) <==> Letters(s[4..], k)
    ensures Broken(s, k + 1) <==> Broken(s[4..], k)
  {
    var t := s[4..];
    assert forall i :: 0 <= i < |t| ==> t[i] == s[i + 4];
    if Letters(t, k) {
      forall i | 0 <= i < 4 * (k + 1) ensures Value(s[i]) >= 0 {
        assert i >= 4 ==> s[i] == t[i - 4];
      }
    }
    if 4 * k + 4 <= |t| {
      assert t[4 * k] == s[4 * (k + 1)] && t[4 * k + 1] == s[4 * (k + 1) + 1];
      assert t[4 * k + 2] == s[4 * (k + 1) + 2] && t[4 * k + 3] == s[4 * (k + 1) + 3];
    }
  }

  lemma FailsStep(s: Bytes, room: nat)
    requires |s| >= 4 && room > 0 && Letters(s, 1)
    ensures Fails(s, room) <==> Fails(s[4..], if room <= 3 then 0 else room - 3)
  {
    var left := if room <= 3 then 0 else room - 3;
    assert !Broken(s, 0);
    if k: nat :| FailsAt(s, room, k) {
      LettersStep(s, k - 1);
      assert FailsAt(s[4..], left, k - 1);
    }
    if k: nat :| FailsAt(s[4..], left, k) {
      LettersStep(s, k);
      assert FailsAt(s, room, k + 1);
    }
  }

  lemma FirstLetters(s: Bytes, k: nat)
    requires Letters(s, k)
    ensures k > 0 ==> Letters(s, 1)
  {
  }

  lemma FailsHere(s: Bytes, room: nat)
    requires |s| >= 4 && room > 0 && !Letters(s, 1)
    ensures Fails(s, room) <==> Broken(s, 0)
  {
    if Broken(s, 0) {
      assert FailsAt(s, room, 0);
    }
    forall k: nat | FailsAt(s, room, k) ensures k == 0 {
      FirstLetters(s, k);
    }
  }

  lemma LooseStep(s: Bytes, room: nat)
    requires |s| >= 4 && room > 0
    ensures Letters(s, 1) ==> (Loose(s, room) == None <==> Loose(s[4..], if room <= 3 then 0 else room - 3) == None)
    ensures !Letters(s, 1) ==> (Loose(s, room) == None <==> Broken(s, 0))
  {
    if Letters(s, 1) {
      assert Value(s[0]) >= 0 && Value(s[1]) >= 0 && Value(s[2]) >= 0 && Value(s[3]) >= 0;
    } else {
      assert !(Value(s[0]) >= 0 && Value(s[1]) >= 0 && Value(s[2]) >= 0 && Value(s[3]) >= 0);
    }
  }

  /** The decoder of src/crypto.c fails exactly when it comes to a broken quad before the buffer is full. */
  lemma {:induction false} LooseFails(s: Bytes, room: nat)
    ensures Loose(s, room) == None <==> Fails(s, room)
    decreases |s|
  {
    if |s| >= 4 && room > 0 {
      LooseStep(s, room);
      if Letters(s, 1) {
        FailsStep(s, room);
        LooseFails(s[4..], if room <= 3 then 0 else room - 3);
      } else {
        FailsHere(s, room);
      }
    }
  }

  /** `done` is written, and the rest of the text decides. */
  ghost predicate Loosely(input: Bytes, room: nat, i: nat, done: Bytes) {
    i <= |input| && |done| <= room &&
    Loose(input, room) == match Loose(input[i..], room - |done|) case None => None case Some(r) => Some(done + r)
  }

  lemma LooselyStart(input: Bytes, room: nat)
    ensures Loosely(input, room, 0, []) == true
  {
    assert input[0..] == input;
    var r := Loose(input, room);
    assert r.Some? ==> [] + r.value == r.value;
  }

  lemma LooselyStep(input: Bytes, room: nat, i: nat, done: Bytes)
    requires Loosely(input, room, i, done) && i + 4 <= |input| && |done| < room
    ensures Head(input[i..]).None? ==> Loose(input, room) == None
    ensures Head(input[i..]).Some? ==>
      var (q, more) := Head(input[i..]).value;
      var cut := q[..Min(|q|, room - |done|)];
      if more then Loosely(input, room, i + 4, done + cut) else Loose(input, room) == Some(done + cut)
  {
    var s, left := input[i..], room - |done|;
    assert s[4..] == input[i + 4..];
    if Head(s).None? {
      assert Loose(s, left) == None;
    } else {
      var q := Head(s).value.0;
      var cut := q[..Min(|q|, left)];
      if Head(s).value.1 {
        var r := Loose(s[4..], left - |cut|);
        assert Loose(s, left) == match r case None => None case Some(rest) => Some(cut + rest);
        if r.Some? {
          assert done + (cut + r.value) == done + cut + r.value;
        }
      } else {
        assert Loose(s, left) == Some(cut);
      }
    }
  }

  /** Filling stops at the end of the buffer. */
  lemma FilledCut(text: Bytes, n: nat, outlen: nat, done: Bytes, q: Bytes)
    requires Filled(text, n, outlen, done + q) && |done| <= outlen
    ensures var cut := q[..Min(|q|, outlen - |done|)];
      Filled(text, n, outlen, done + cut) && n == |done + cut| && text[..n] == done + cut
  {
  }

  /** crypto_b64_decode; None stands for (size_t)-1. */
  method CryptoDecode(input: Bytes, out: array<Byte>, outlen: nat) returns (r: Option<nat>)
    requires outlen <= out.Length
    modifies out
    ensures r.None? <==> Loose(input, outlen).None?
    ensures r.Some? ==> r.value <= outlen && out[..r.value] == Loose(input, outlen).value
  {
    var i: nat, o: nat := 0, 0;
    ghost var done: Bytes := [];
    LooselyStart(input, outlen);
    while i + 3 < |input| && o < outlen
      invariant i <= |input| && Loosely(input, outlen, i, done) == true && o == |done| && Filled(out[..], o, outlen, done) == true
      decreases |input| - i
    {
      LooselyStep(input, outlen, i, done);
      ghost var x, o0 := out[..], o;
      var t;
      t, o := CryptoTurn(input[i..], out, o, outlen);
      if t == None {
        return None;
      }
      ghost var q := Head(input[i..]).value.0;
      FilledStep(x, out[..], o0, o, outlen, done, q);
      FilledCut(out[..], o, outlen, done, q);
      if !t.value {
        return Some(o);
      }
      done := done + q[..Min(|q|, outlen - |done|)];
      i := i + 4;
    }
    assert out[..o] == done;
    assert Loose(input[i..], outlen - |done|) == Some([]);
    assert done + [] == done;
    return Some(o);
  }

  /** Each decoder inverts its encoder, which gives the same text as the other; a short buffer gets
      a prefix. */
  lemma CryptoRoundTrip(bs: Bytes, room: nat)
    ensures Loose(Encode(bs), room) == Some(bs[..Min(|bs|, room)])
  {
    RoundTrip(bs);
    LooseAgrees(Encode(bs), room);
  }

  // ----- base64_encode_alloc -----

  /** One more than the largest size_t */
  const WORD: nat := 0x1_0000_0000_0000_0000

  /** 1 + BASE64_LENGTH (inlen), computed in size_t */
  function WrappedLength(inlen: nat): nat {
    (1 + (inlen + 2) % WORD / 3 * 4 % WORD) % WORD
  }

  /** The test for overflow is exact. */
  lemma OverflowTestExact(inlen: nat)
    requires inlen < WORD
    ensures inlen > WrappedLength(inlen) <==> 1 + (inlen + 2) / 3 * 4 >= WORD
  {
    if inlen + 2 >= WORD {
      assert (inlen + 2) % WORD == inlen + 2 - WORD;
    } else {
      var len := (inlen + 2) / 3 * 4;
      assert len < 2 * WORD;
      assert len % WORD == if len < WORD then len else len - WORD;
    }
  }
}
