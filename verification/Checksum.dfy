/**
 The checksum of a traceroute probe: a payload whose last word makes the UDP checksum come out at a
 chosen value, so that every probe of a flow carries the same one.
 */
module Checksum {
  import opened Common

  newtype byte = x: int | 0 <= x < 256

  const WORD: int := 0x1_0000
  const TWO_TO_THE_32: int := 0x1_0000_0000

  type Word = x: int | 0 <= x < WORD

  datatype Address = Address(is4: bool, bytes: seq<byte>) {
    predicate Valid() { |bytes| == if is4 then 4 else 16 }
  }

  // ---------- the sum ----------

  function High(w: Word): byte { (w / 256) as byte }

  function Low(w: Word): byte { (w % 256) as byte }

  function Bytes(w: Word): seq<byte> { [High(w), Low(w)] }

  /** The sum of the big-endian words; an odd last byte counts as if followed by a zero. */
  function WordSum(s: seq<byte>): nat {
    if s == [] then 0
    else if |s| == 1 then s[0] as nat * 256
    else s[0] as nat * 256 + s[1] as nat + WordSum(s[2..])
  }

  // Protocol and length in the pseudo header.
  function Trailer(is4: bool, length: nat): seq<byte> {
    if is4 then [0, 17] + Bytes(length % WORD)
    else Bytes(length / WORD % WORD) + Bytes(length % WORD) + [0, 0, 0, 17]
  }

  // The UDP header with an empty checksum field.
  function Ports(from: Word, to: Word, length: nat): seq<byte> {
    Bytes(from) + Bytes(to) + Bytes(length % WORD) + [0, 0]
  }

  // The pseudo header and the UDP header.
  function Header(source: Address, destination: Address, from: Word, to: Word, length: nat): seq<byte> {
    source.bytes + destination.bytes + Trailer(source.is4, length) + Ports(from, to, length)
  }

  function Datagram(source: Address, destination: Address, from: Word, to: Word, payload: seq<byte>): seq<byte> {
    Header(source, destination, from, to, 8 + |payload|) + payload
  }

  lemma {:induction false} WordSumAdds(a: seq<byte>, b: seq<byte>)
    requires |a| % 2 == 0
    ensures WordSum(a + b) == WordSum(a) + WordSum(b)
  {
    if a == [] {
      assert a + b == b;
    } else {
      assert (a + b)[2..] == a[2..] + b;
      WordSumAdds(a[2..], b);
    }
  }

  lemma {:induction false} WordSumBound(s: seq<byte>)
    ensures WordSum(s) <= (|s| + 1) / 2 * 0xFFFF
  {
    if |s| > 1 {
      WordSumBound(s[2..]);
      assert (|s| + 1) / 2 == (|s[2..]| + 1) / 2 + 1;
    }
  }

  lemma {:induction false} WordSumTakes(s: seq<byte>, i: nat)
    requires i % 2 == 0 && |s| % 2 == 0 && i + 1 < |s|
    ensures WordSum(s[..i + 2]) == WordSum(s[..i]) + s[i] as nat * 256 + s[i + 1] as nat
  {
    assert s[..i + 2] == s[..i] + [s[i], s[i + 1]];
    WordSumAdds(s[..i], [s[i], s[i + 1]]);
    assert [s[i], s[i + 1]][2..] == [];
  }

  lemma OddPad(s: seq<byte>)
    requires |s| % 2 == 1
    ensures WordSum(s + [0]) == WordSum(s)
    decreases |s|
  {
    if |s| > 1 {
      assert (s + [0])[2..] == s[2..] + [0];
      OddPad(s[2..]);
    } else {
      assert (s + [0])[2..] == [];
    }
  }

  lemma NoWords()
    ensures WordSum([]) == 0
  {
  }

  lemma Wrap(a: nat, b: nat)
    ensures (a % TWO_TO_THE_32 + b) % TWO_TO_THE_32 == (a + b) % TWO_TO_THE_32
  {
  }

  method Accumulate(bytes: seq<byte>) returns (sum: nat)
    requires |bytes| % 2 == 0
    ensures sum == WordSum(bytes) % TWO_TO_THE_32
  {
    hide WordSum;
    sum := 0;
    var i := 0;
    assert bytes[..0] == [];
    NoWords();
    while i < |bytes|
      invariant 0 <= i <= |bytes| && i % 2 == 0
      invariant sum == WordSum(bytes[..i]) % TWO_TO_THE_32
    {
      var word: nat := bytes[i] as nat * 256 + bytes[i + 1] as nat;
      WordSumTakes(bytes, i);
      Wrap(WordSum(bytes[..i]), word);
      sum := (sum + word) % TWO_TO_THE_32;
      i := i + 2;
    }
    assert bytes[..i] == bytes;
  }

  method Padded(bytes: seq<byte>) returns (even: seq<byte>)
    ensures |even| % 2 == 0 && WordSum(even) == WordSum(bytes)
  {
    hide WordSum;
    even := bytes;
    if |bytes| % 2 != 0 {
      OddPad(bytes);
      even := bytes + [0];
    }
  }

  /** The accumulated 32-bit sum; None when the address families differ. */
  method PseudoSum(source: Address, destination: Address, from: Word, to: Word, payload: seq<byte>)
    returns (r: Try<int>)
    requires source.Valid() && destination.Valid()
    ensures r == if source.is4 != destination.is4 then Failure
                 else Success(WordSum(Datagram(source, destination, from, to, payload)) % TWO_TO_THE_32)
  {
    if source.is4 != destination.is4 {
      return Failure;
    }
    hide WordSum, Header, Datagram;
    var bytes := Padded(Datagram(source, destination, from, to, payload));
    var sum := Accumulate(bytes);
    r := Success(sum);
  }

  /** The sum of a datagram of any length UDP allows never wraps around. */
  lemma SumNeverOverflows(source: Address, destination: Address, from: Word, to: Word, payload: seq<byte>)
    requires source.Valid() && destination.Valid() && |payload| <= 0xFFFF - 8 && source.is4 == destination.is4
    ensures WordSum(Datagram(source, destination, from, to, payload)) < TWO_TO_THE_32
  {
    hide WordSum;
    WordSumBound(Datagram(source, destination, from, to, payload));
  }

  // ---------- one's complement ----------

  /** The one's-complement residue of a sum: its remainder modulo 65535, with 65535 for a non-zero multiple. */
  function Residue(sum: nat): Word {
    if sum == 0 then 0 else if sum % 0xFFFF == 0 then 0xFFFF else sum % 0xFFFF
  }

  lemma SameRemainder(a: nat, q: nat)
    ensures (a + q * 0xFFFF) % 0xFFFF == a % 0xFFFF
  {
    if q > 0 {
      SameRemainder(a, q - 1);
      assert (a + (q - 1) * 0xFFFF + 0xFFFF) % 0xFFFF == (a + (q - 1) * 0xFFFF) % 0xFFFF;
    }
  }

  lemma CarryKeeps(sum: nat)
    ensures Residue(sum % WORD + sum / WORD) == Residue(sum)
    ensures sum >= WORD ==> sum % WORD + sum / WORD < sum
  {
    var q, k := sum / WORD, sum % 0xFFFF;
    assert sum == sum % WORD + q + q * 0xFFFF;
    SameRemainder(sum % WORD + q, q);
  }

  lemma SmallResidue(x: nat)
    requires x < WORD
    ensures Residue(x) == x
  {
  }

  /** Adding the carries back in until none is left ends, and preserves the residue. */
  method Fold(sum: nat) returns (r: Word)
    ensures r == Residue(sum)
  {
    hide Residue;
    var x := sum;
    while x / WORD != 0
      invariant x >= 0 && Residue(x) == Residue(sum)
      decreases x
    {
      CarryKeeps(x);
      x := x % WORD + x / WORD;
    }
    SmallResidue(x);
    r := x;
  }

  method OnesSubtract(a: Word, b: Word) returns (r: Word)
    ensures r == Residue(a + (0xFFFF - b))
  {
    r := Fold(a + (0xFFFF - b));
  }

  /** The UDP checksum of a datagram whose word sum is given; a zero is sent as all ones. */
  function Complement(sum: nat): Word {
    var c := 0xFFFF - Residue(sum);
    if c == 0 then 0xFFFF else c
  }

  /** The checksum fits: added to the sum of the datagram it gives a multiple of 65535. */
  lemma ChecksumFits(sum: nat)
    ensures (sum + Complement(sum)) % 0xFFFF == 0 && Complement(sum) != 0
  {
  }

  method UdpChecksum(source: Address, destination: Address, from: Word, to: Word, payload: seq<byte>)
    returns (r: Try<Word>)
    requires source.Valid() && destination.Valid()
    ensures r == if source.is4 != destination.is4 then Failure
                 else Success(Complement(WordSum(Datagram(source, destination, from, to, payload)) % TWO_TO_THE_32))
  {
    hide WordSum, Datagram, Residue;
    var sum := PseudoSum(source, destination, from, to, payload);
    if sum.Failure? {
      return Failure;
    }
    var folded := Fold(sum.value);
    var result := 0xFFFF - folded;
    r := Success(if result == 0 then 0xFFFF else result);
  }

  // ---------- compensation ----------

  const MAGIC: seq<byte> := [70, 76, 77, 80, 0, 0]

  lemma ComplementIs(sum: nat, desired: Word)
    requires sum > 0 && desired > 0 && sum % 0xFFFF == (0xFFFF - desired) % 0xFFFF
    ensures Complement(sum) == desired
  {
  }

  // What folding takes away is a multiple of 65535.
  lemma Carries(x: nat) returns (k: nat)
    ensures x == Residue(x) + 0xFFFF * k
  {
    k := if x == 0 then 0 else if x % 0xFFFF == 0 then x / 0xFFFF - 1 else x / 0xFFFF;
  }

  lemma Shifts(y: int, n: int)
    ensures (y + 0xFFFF * n) % 0xFFFF == y % 0xFFFF
  {
  }

  lemma SumRemains(sum: nat, x: nat, desired: Word)
    requires x == (0xFFFF - desired) + (0xFFFF - Residue(sum))
    ensures (sum + Residue(x)) % 0xFFFF == (0xFFFF - desired) % 0xFFFF
  {
    hide Residue;
    var j := Carries(sum);
    var k := Carries(x);
    var rest: int, n: int := 0xFFFF - desired, 1 + j as int - k;
    assert sum + Residue(x) == rest + 0xFFFF * n;
    Shifts(rest, n);
  }

  /** The last word that brings a positive sum to the wanted checksum, whatever the sum was. */
  lemma Compensates(sum: nat, desired: Word)
    requires sum > 0 && desired != 0
    ensures var comp := Residue((0xFFFF - desired) + (0xFFFF - Residue(sum)));
            Complement(sum + comp) == desired
  {
    hide Residue, Complement;
    var x := (0xFFFF - desired) + (0xFFFF - Residue(sum));
    SumRemains(sum, x, desired);
    ComplementIs(sum + Residue(x), desired);
  }

  lemma MagicWords(comp: Word)
    ensures WordSum(MAGIC) > 0 && WordSum(Bytes(comp)) == comp && WordSum([0, 0]) == 0
  {
    var zero: seq<byte> := [0, 0];
    assert Bytes(comp)[2..] == [] && zero[2..] == [];
    assert WordSum(Bytes(comp)) == High(comp) as nat * 256 + Low(comp) as nat;
  }

  lemma DatagramSum(source: Address, destination: Address, from: Word, to: Word, comp: Word)
    requires source.Valid() && destination.Valid() && source.is4 == destination.is4
    ensures WordSum(Datagram(source, destination, from, to, MAGIC + Bytes(comp)))
         == WordSum(Datagram(source, destination, from, to, MAGIC + [0, 0])) + comp
    ensures WordSum(Datagram(source, destination, from, to, MAGIC + [0, 0])) > 0
  {
    hide WordSum;
    var h := Header(source, destination, from, to, 16);
    assert |h| % 2 == 0;
    var start := h + MAGIC;
    assert Datagram(source, destination, from, to, MAGIC + Bytes(comp)) == start + Bytes(comp);
    assert Datagram(source, destination, from, to, MAGIC + [0, 0]) == start + [0, 0];
    WordSumAdds(start, Bytes(comp));
    WordSumAdds(start, [0, 0]);
    WordSumAdds(h, MAGIC);
    MagicWords(comp);
  }

  lemma PayloadFits(source: Address, destination: Address, from: Word, to: Word, desired: Word)
    requires source.Valid() && destination.Valid() && source.is4 == destination.is4 && desired != 0
    ensures var sum := WordSum(Datagram(source, destination, from, to, MAGIC + [0, 0]));
            var comp := Residue((0xFFFF - desired) + (0xFFFF - Residue(sum)));
            var sum' := WordSum(Datagram(source, destination, from, to, MAGIC + Bytes(comp)));
            && sum % TWO_TO_THE_32 == sum
            && Complement(sum') == desired && Complement(sum' % TWO_TO_THE_32) == desired
  {
    hide WordSum, Datagram, Complement, Residue;
    var sum := WordSum(Datagram(source, destination, from, to, MAGIC + [0, 0]));
    var comp := Residue((0xFFFF - desired) + (0xFFFF - Residue(sum)));
    DatagramSum(source, destination, from, to, comp);
    SumNeverOverflows(source, destination, from, to, MAGIC + [0, 0]);
    SumNeverOverflows(source, destination, from, to, MAGIC + Bytes(comp));
    Compensates(sum, desired);
  }

  lemma PayloadShape(w: Word)
    ensures |MAGIC + Bytes(w)| == 8 && (MAGIC + Bytes(w))[..6] == MAGIC
  {
  }

  method Template() returns (payload: array<byte>)
    ensures fresh(payload) && payload.Length == 8 && payload[..] == MAGIC + [0, 0]
  {
    payload := new byte[8] [70, 76, 77, 80, 0, 0, 0, 0];
  }

  // Puts a word at the end of the payload, high byte first.
  method PutLast(payload: array<byte>, w: Word)
    requires payload.Length == 8 && payload[..] == MAGIC + [0, 0]
    modifies payload
    ensures payload[..] == MAGIC + Bytes(w)
  {
    assert payload[..6] == payload[..][..6] == MAGIC;
    payload[6], payload[7] := High(w), Low(w);
    assert payload[..] == payload[..6] + [payload[6], payload[7]];
  }

  /**
   For addresses of one family and any non-zero checksum the payload exists, starts with the fixed mark,
   and gives the datagram exactly that checksum.
   */
  method ParisPayload(source: Address, destination: Address, from: Word, to: Word, desired: Word)
    returns (r: Try<seq<byte>>)
    requires source.Valid() && destination.Valid()
    ensures r.Failure? <==> desired == 0 || source.is4 != destination.is4
    ensures r.Success? ==> |r.value| == 8 && r.value[..6] == MAGIC
    ensures r.Success? ==> Complement(WordSum(Datagram(source, destination, from, to, r.value))) == desired
  {
    if desired == 0 {
      return Failure;
    }
    hide *;
    var payload := Template();
    var sum := PseudoSum(source, destination, from, to, payload[..]);
    if sum.Failure? {
      return Failure;
    }
    var folded := Fold(sum.value);
    var comp := OnesSubtract(0xFFFF - desired, folded);
    PutLast(payload, comp);
    var whole := payload[..];
    PayloadFits(source, destination, from, to, desired);
    PayloadShape(comp);
    var got := UdpChecksum(source, destination, from, to, whole);
    if got != Success(desired) {
      return Failure;
    }
    r := Success(whole);
  }

  lemma WordIs(w: Word)
    ensures WordSum(Bytes(w)) == w && |Bytes(w)| == 2
  {
    assert Bytes(w)[2..] == [];
  }

  lemma TrailerWords(is4: bool, length: nat)
    ensures |Trailer(is4, length)| % 2 == 0
    ensures WordSum(Trailer(is4, length)) == 17 + length % WORD + if is4 then 0 else length / WORD % WORD
  {
    WordIs(length % WORD);
    WordIs(length / WORD % WORD);
    var proto4: seq<byte>, proto6: seq<byte> := [0, 17], [0, 0, 0, 17];
    assert proto4[2..] == [] && proto6[2..] == proto4;
    assert WordSum(proto4) == 17 && WordSum(proto6) == 17;
    hide WordSum, Bytes;
    WordSumAdds(proto4, Bytes(length % WORD));
    WordSumAdds(Bytes(length / WORD % WORD) + Bytes(length % WORD), proto6);
    WordSumAdds(Bytes(length / WORD % WORD), Bytes(length % WORD));
  }

  lemma PortWords(from: Word, to: Word, length: nat)
    ensures |Ports(from, to, length)| % 2 == 0 && WordSum(Ports(from, to, length)) == from + to + length % WORD
  {
    WordIs(from);
    WordIs(to);
    WordIs(length % WORD);
    var zero: seq<byte> := [0, 0];
    assert zero[2..] == [];
    assert WordSum(zero) == 0;
    hide WordSum, Bytes;
    WordSumAdds(Bytes(from) + Bytes(to) + Bytes(length % WORD), zero);
    WordSumAdds(Bytes(from) + Bytes(to), Bytes(length % WORD));
    WordSumAdds(Bytes(from), Bytes(to));
  }

  lemma JoinedSum(a: seq<byte>, b: seq<byte>, t: seq<byte>, p: seq<byte>, x: seq<byte>)
    requires |a| % 2 == 0 && |b| % 2 == 0 && |t| % 2 == 0 && |p| % 2 == 0
    ensures WordSum(a + b + t + p + x) == WordSum(a) + WordSum(b) + WordSum(t) + WordSum(p) + WordSum(x)
  {
    hide WordSum;
    WordSumAdds(a + b + t + p, x);
    WordSumAdds(a + b + t, p);
    WordSumAdds(a + b, t);
    WordSumAdds(a, b);
  }

  /**
   The sum is that of the pseudo header of RFC 768, or of RFC 8200 section 8.1 with its 32-bit length, of the
   UDP header with the checksum left out, and of the payload: both addresses, protocol 17, the length twice and
   both ports.
   */
  lemma SumOfParts(source: Address, destination: Address, from: Word, to: Word, payload: seq<byte>)
    requires source.Valid() && destination.Valid() && source.is4 == destination.is4
    ensures var length := 8 + |payload|;
      WordSum(Datagram(source, destination, from, to, payload)) ==
        WordSum(source.bytes) + WordSum(destination.bytes) + 17 + from + to + WordSum(payload)
        + length % WORD + length % WORD + if source.is4 then 0 else length / WORD % WORD
  {
    var length := 8 + |payload|;
    TrailerWords(source.is4, length);
    PortWords(from, to, length);
    hide WordSum, Trailer, Ports, Bytes;
    JoinedSum(source.bytes, destination.bytes, Trailer(source.is4, length), Ports(from, to, length), payload);
  }
}
