/** Generation identifiers: 26 Crockford base-32 characters, ten for the time in
    milliseconds and sixteen for an 80-bit tail. */
module Ulid {
  import opened Text
  import opened Radix

  const ALPHABET: string := "0123456789ABCDEFGHJKMNPQRSTVWXYZ"
  const TIME_CHARS: nat := 10
  const TAIL_CHARS: nat := 16

  lemma AlphabetIncreases(d: nat, e: nat)
    requires d < e < 32
    ensures |ALPHABET| == 32 && ALPHABET[d] < ALPHABET[e]
    decreases e - d
  {
    assert forall i :: 0 <= i < 31 ==> ALPHABET[i] < ALPHABET[i + 1];
    if d + 1 < e { AlphabetIncreases(d + 1, e); }
  }

  lemma IsCrockford()
    ensures |ALPHABET| == 32 && IsAlphabet(ALPHABET)
  {
    forall i, j | 0 <= i < j < 32 ensures ALPHABET[i] < ALPHABET[j] { AlphabetIncreases(i, j); }
  }

  /** Digits and capitals, without the four that are easily misread. */
  predicate Crockford(c: char) {
    ('0' <= c <= '9' || 'A' <= c <= 'Z') && c != 'I' && c != 'L' && c != 'O' && c != 'U'
  }

  lemma AlphabetExactly(c: char)
    ensures c in ALPHABET <==> Crockford(c)
  {
    if c in ALPHABET {
      var i :| 0 <= i < |ALPHABET| && ALPHABET[i] == c;
      ListedIsCrockford(i);
    }
    if Crockford(c) { CrockfordIsListed(c); }
  }

  lemma ListedIsCrockford(i: nat)
    requires i < |ALPHABET|
    ensures Crockford(ALPHABET[i])
  {
  }

  lemma CrockfordIsListed(c: char)
    requires Crockford(c)
    ensures c in ALPHABET
  {
    var i := if c <= '9' then (c - '0') as int
             else if c <= 'H' then (c - 'A') as int + 10
             else if c <= 'K' then (c - 'J') as int + 18
             else if c <= 'N' then (c - 'M') as int + 20
             else if c <= 'T' then (c - 'P') as int + 22
             else (c - 'V') as int + 27;
    assert ALPHABET[i] == c;
  }

  /** The ten tail bytes as one big-endian number. */
  function BytesValue(bytes: seq<nat>): nat {
    if bytes == [] then 0 else 256 * BytesValue(bytes[..|bytes| - 1]) + bytes[|bytes| - 1]
  }

  lemma {:induction false} BytesBound(bytes: seq<nat>)
    requires forall i :: 0 <= i < |bytes| ==> bytes[i] < 256
    ensures BytesValue(bytes) < Power(256, |bytes|)
  {
    if bytes != [] { BytesBound(bytes[..|bytes| - 1]); }
  }

  lemma Capacities()
    ensures Power(256, 10) == Power(32, TAIL_CHARS) == 0x1_0000_0000_0000_0000_0000
    ensures Power(32, TIME_CHARS) == 0x4_0000_0000_0000
  {
    assert Power(256, 5) == 0x100_0000_0000;
    assert Power(32, 5) == 0x200_0000;
    assert Power(32, 8) == 0x100_0000_0000;
    assert Power(32, 12) == 0x1000_0000_0000_0000;
  }

  function UlidText(millis: nat, tail: nat): (id: string)
    ensures |id| == 26
  {
    Encode(ALPHABET, millis, TIME_CHARS) + Encode(ALPHABET, tail, TAIL_CHARS)
  }

  /** Every character of an identifier is one of the thirty-two. */
  lemma {:induction false} UlidIsCrockford(millis: nat, tail: nat, i: nat)
    requires i < 26
    ensures Crockford(UlidText(millis, tail)[i])
  {
    IsCrockford();
    if i < TIME_CHARS {
      EncodeAt(ALPHABET, millis, TIME_CHARS, i);
    } else {
      EncodeAt(ALPHABET, tail, TAIL_CHARS, i - TIME_CHARS);
    }
    AlphabetExactly(UlidText(millis, tail)[i]);
  }

  /** Write the five-bit groups of `v`, most significant first. */
  method WriteDigits(out: array<char>, at: nat, v: nat, width: nat)
    requires at + width <= out.Length
    modifies out
    ensures out[at..at + width] == Encode(ALPHABET, v, width)
    ensures out[..at] == old(out[..at])
  {
    for i := 0 to width
      invariant forall k :: 0 <= k < i ==> out[at + k] == Encode(ALPHABET, v, width)[k]
      invariant out[..at] == old(out[..at])
    {
      EncodeAt(ALPHABET, v, width, i);
      out[at + i] := ALPHABET[v / Power(32, width - 1 - i) % 32];
    }
  }

  /** The 26 characters for a clock reading and ten random bytes. */
  method NewUlid(millis: nat, bytes: seq<nat>) returns (id: string)
    requires |bytes| == 10 && forall i :: 0 <= i < |bytes| ==> bytes[i] < 256
    ensures id == UlidText(millis, BytesValue(bytes))
  {
    var out := new char[26](_ => '0');
    WriteDigits(out, 0, millis, TIME_CHARS);
    var r := 0;
    for k := 0 to 10
      invariant r == BytesValue(bytes[..k])
      invariant out[0..TIME_CHARS] == Encode(ALPHABET, millis, TIME_CHARS)
    {
      assert bytes[..k + 1][..k] == bytes[..k];
      r := r * 256 + bytes[k];
    }
    assert bytes[..10] == bytes;
    assert out[..TIME_CHARS] == out[0..TIME_CHARS];
    WriteDigits(out, TIME_CHARS, r, TAIL_CHARS);
    id := out[..];
    assert id == out[..TIME_CHARS] + out[TIME_CHARS..TIME_CHARS + TAIL_CHARS];
  }

  lemma TailBound(bytes: seq<nat>)
    requires |bytes| == 10 && forall i :: 0 <= i < |bytes| ==> bytes[i] < 256
    ensures BytesValue(bytes) < Power(32, TAIL_CHARS)
  {
    BytesBound(bytes);
    Capacities();
  }

  /** The two parts of an identifier, read back. */
  function TimeOf(id: string): nat
    requires |id| == 26
  {
    Decode(ALPHABET, id[..TIME_CHARS])
  }

  function TailOf(id: string): nat
    requires |id| == 26
  {
    Decode(ALPHABET, id[TIME_CHARS..])
  }

  lemma UlidParts(millis: nat, tail: nat)
    ensures TimeOf(UlidText(millis, tail)) == Decode(ALPHABET, Encode(ALPHABET, millis, TIME_CHARS))
    ensures TailOf(UlidText(millis, tail)) == Decode(ALPHABET, Encode(ALPHABET, tail, TAIL_CHARS))
  {
    var id := UlidText(millis, tail);
    assert id[..TIME_CHARS] == Encode(ALPHABET, millis, TIME_CHARS);
    assert id[TIME_CHARS..] == Encode(ALPHABET, tail, TAIL_CHARS);
  }

  /** Reading an identifier back gives the whole tail, and gives the time exactly when it is
      below 2^50 milliseconds, the fifty bits ten characters hold. */
  lemma UlidRoundTrip(millis: nat, bytes: seq<nat>)
    requires |bytes| == 10 && forall i :: 0 <= i < |bytes| ==> bytes[i] < 256
    ensures TailOf(UlidText(millis, BytesValue(bytes))) == BytesValue(bytes)
    ensures TimeOf(UlidText(millis, BytesValue(bytes))) == millis <==> millis < 0x4_0000_0000_0000
  {
    IsCrockford();
    UlidParts(millis, BytesValue(bytes));
    TailBound(bytes);
    ReadBack(ALPHABET, BytesValue(bytes), TAIL_CHARS);
    ReadBack(ALPHABET, millis, TIME_CHARS);
    Capacities();
  }

  lemma UlidLess(a: nat, b: nat, x: nat, y: nat)
    requires a < b < 0x4_0000_0000_0000
    ensures Less(UlidText(a, x), UlidText(b, y))
  {
    IsCrockford();
    Capacities();
    EncodeOrder(ALPHABET, a, b, TIME_CHARS);
    LessByPrefix(Encode(ALPHABET, a, TIME_CHARS), Encode(ALPHABET, b, TIME_CHARS),
                 Encode(ALPHABET, x, TAIL_CHARS), Encode(ALPHABET, y, TAIL_CHARS));
  }

  /** For different milliseconds below 2^50 the text order is the time order, whatever the tails. */
  lemma UlidOrder(a: nat, b: nat, x: nat, y: nat)
    requires a != b && a < 0x4_0000_0000_0000 && b < 0x4_0000_0000_0000
    ensures Less(UlidText(a, x), UlidText(b, y)) <==> a < b
  {
    if a < b {
      UlidLess(a, b, x, y);
    } else {
      UlidLess(b, a, y, x);
      LessAsymmetric(UlidText(b, y), UlidText(a, x));
    }
  }
}
