/** Length-prefixed packages: a 32-bit size in network order, then that many bytes. */
module Framing {
  import opened Bytes

  const HEAD: int := 4

  /** htonl */
  function Be32(x: int): (b: seq<Byte>)
    ensures |b| == 4
  {
    var l := Le(x, 4);
    [l[3], l[2], l[1], l[0]]
  }

  /** ntohl of the size field. */
  function Size(b: seq<Byte>): (n: int)
    requires |b| >= 4
    ensures 0 <= n < TWO32
  {
    UIntBound([b[3], b[2], b[1], b[0]]);
    Pow256Values();
    UInt([b[3], b[2], b[1], b[0]])
  }

  /** The size field stands in network order: its first byte weighs most. */
  lemma SizeInNetworkOrder(b: seq<Byte>)
    requires |b| >= 4
    ensures Size(b) == 0x100_0000 * (b[0] as int) + 0x1_0000 * (b[1] as int) + 0x100 * (b[2] as int) + b[3]
  {
    var l := [b[3], b[2], b[1], b[0]];
    assert UInt(l[1..]) == l[1] + 256 * UInt(l[2..]) && UInt(l[2..]) == l[2] + 256 * UInt(l[3..]);
    assert UInt(l[3..]) == l[3] by { assert l[3..] == [l[3]]; assert l[3..][1..] == []; }
  }

  lemma SizeStored(x: int, rest: seq<Byte>)
    ensures Size(Be32(x) + rest) == x % TWO32
  {
    var l, b := Le(x, 4), Be32(x) + rest;
    assert [b[3], b[2], b[1], b[0]] == l;
    LoadStored(x, 4);
    Pow256Values();
  }

  function Package(payload: seq<Byte>): (b: seq<Byte>)
    ensures |b| == 4 + |payload|
  {
    Be32(|payload|) + payload
  }

  function Join(parts: seq<seq<Byte>>): (r: seq<Byte>) {
    if parts == [] then [] else parts[0] + Join(parts[1..])
  }

  lemma {:induction false} JoinAppend(a: seq<seq<Byte>>, b: seq<seq<Byte>>)
    ensures Join(a + b) == Join(a) + Join(b)
  {
    if a == [] {
      assert a + b == b;
    } else {
      assert (a + b)[1..] == a[1..] + b;
      JoinAppend(a[1..], b);
    }
  }

  lemma Assoc<T>(a: seq<T>, b: seq<T>, c: seq<T>)
    ensures (a + b) + c == a + (b + c)
  {
  }

  /** A run of packages on the wire. */
  function Emit(payloads: seq<seq<Byte>>): (r: seq<Byte>) {
    if payloads == [] then [] else Package(payloads[0]) + Emit(payloads[1..])
  }

  lemma {:induction false} EmitAppend(a: seq<seq<Byte>>, b: seq<seq<Byte>>)
    ensures Emit(a + b) == Emit(a) + Emit(b)
  {
    hide Package;
    if a == [] {
      assert a + b == b;
    } else {
      assert (a + b)[1..] == a[1..] + b;
      EmitAppend(a[1..], b);
      Assoc(Package(a[0]), Emit(a[1..]), Emit(b));
    }
  }

  /** What a receiver makes of a byte stream: the whole payloads, and the bytes left over. */
  function Split(b: seq<Byte>): (r: (seq<seq<Byte>>, seq<Byte>))
    decreases |b|
  {
    if |b| < HEAD || |b| < HEAD + Size(b) then ([], b)
    else
      var n := HEAD + Size(b);
      var (ps, rest) := Split(b[n..]);
      ([b[HEAD..n]] + ps, rest)
  }

  predicate Sendable(payloads: seq<seq<Byte>>) { forall p :: p in payloads ==> |p| < TWO32 }

  lemma SizeOfPackage(p: seq<Byte>, rest: seq<Byte>)
    requires |p| < TWO32
    ensures var b := Package(p) + rest; Size(b) == |p| && b[4..4 + |p|] == p && b[4 + |p|..] == rest
  {
    hide Be32, Size;
    Assoc(Be32(|p|), p, rest);
    SizeStored(|p|, p + rest);
  }

  lemma SplitFirst(p: seq<Byte>, rest: seq<Byte>)
    requires |p| < TWO32
    ensures Split(Package(p) + rest) == ([p] + Split(rest).0, Split(rest).1)
  {
    SizeOfPackage(p, rest);
    hide Package, Size;
  }

  lemma EmitFirst(payloads: seq<seq<Byte>>)
    requires payloads != []
    ensures Emit(payloads) == Package(payloads[0]) + Emit(payloads[1..])
  {
  }

  /** Sending packages and splitting the stream gives the payloads back, whatever incomplete
      package follows. */
  lemma {:induction false} SplitEmitted(payloads: seq<seq<Byte>>, tail: seq<Byte>)
    requires Sendable(payloads) && (|tail| < HEAD || |tail| < HEAD + Size(tail))
    ensures Split(Emit(payloads) + tail) == (payloads, tail)
  {
    if payloads == [] {
      assert Emit(payloads) + tail == tail;
    } else {
      hide Split, Package, Size, Emit;
      EmitFirst(payloads);
      var p, ps := payloads[0], payloads[1..];
      Assoc(Package(p), Emit(ps), tail);
      SplitFirst(p, Emit(ps) + tail);
      SplitEmitted(ps, tail);
      assert payloads == [p] + ps;
    }
  }
}
