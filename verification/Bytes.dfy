/** Bytes, little-endian 32-bit words, and concatenation of byte strings. */
module Bytes {

  type Byte = x: int | 0 <= x < 256

  /** The word that a little-endian machine reads at the start of s. */
  function ReadU32(s: seq<Byte>): nat
    requires |s| >= 4
  {
    var b0: nat, b1: nat, b2: nat, b3: nat := s[0], s[1], s[2], s[3];
    b0 + 256 * b1 + 65536 * b2 + 16777216 * b3
  }

  /** The four bytes that a little-endian machine stores for n. */
  function WriteU32(n: nat): (s: seq<Byte>)
    requires n < 0x1_0000_0000
    ensures |s| == 4
  {
    [n % 256, n / 256 % 256, n / 65536 % 256, n / 16777216]
  }

  lemma WriteThenRead(n: nat)
    requires n < 0x1_0000_0000
    ensures ReadU32(WriteU32(n)) == n
  {
    assert n / 65536 == n / 256 / 256;
    assert n / 16777216 == n / 256 / 256 / 256;
  }

  lemma ReadThenWrite(s: seq<Byte>)
    requires |s| == 4
    ensures ReadU32(s) < 0x1_0000_0000 && WriteU32(ReadU32(s)) == s
  {
    var n := ReadU32(s);
    var b1: nat, b2: nat, b3: nat := s[1], s[2], s[3];
    assert n / 256 == b1 + 256 * b2 + 65536 * b3;
    assert n / 65536 == b2 + 256 * b3;
    assert n / 16777216 == b3;
  }

  function Flatten<T>(parts: seq<seq<T>>): (whole: seq<T>)
    ensures parts == [] ==> whole == []
  {
    if parts == [] then [] else Flatten(parts[..|parts| - 1]) + parts[|parts| - 1]
  }

  lemma FlattenSnoc<T>(parts: seq<seq<T>>, last: seq<T>)
    ensures Flatten(parts + [last]) == Flatten(parts) + last
  {
    assert (parts + [last])[..|parts|] == parts;
  }

  lemma {:induction false} FlattenConcat<T>(a: seq<seq<T>>, b: seq<seq<T>>)
    ensures Flatten(a + b) == Flatten(a) + Flatten(b)
    decreases |b|
  {
    if b == [] {
      assert a + b == a;
    } else {
      var b' := b[..|b| - 1];
      FlattenConcat(a, b');
      assert a + b == (a + b') + [b[|b| - 1]];
      FlattenSnoc(a + b', b[|b| - 1]);
    }
  }

  lemma FlattenCons<T>(first: seq<T>, parts: seq<seq<T>>)
    ensures Flatten([first] + parts) == first + Flatten(parts)
  {
    FlattenConcat([first], parts);
    FlattenSnoc([], first);
    assert [] + [first] == [first];
    assert [] + first == first;
  }
}
