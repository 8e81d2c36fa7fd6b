/** The packages an encoder hands to the sessions: the codec header that grows in place, and
    the packet printer. */
module Encoder {
  import opened Bytes
  import opened Framing
  import opened Wrappers

  lemma LowDigit(x: int, p: int)
    requires p >= 1
    ensures var y := x % (256 * p); y % 256 == x % 256 && y / 256 == (x / 256) % p
  {
    ModSplit(x, p);
    DigitApart(x % 256, (x / 256) % p);
  }

  lemma DigitApart(r: int, q: int)
    requires 0 <= r < 256
    ensures (r + 256 * q) % 256 == r && (r + 256 * q) / 256 == q
  {
  }

  /** Only the value modulo 2^32 reaches a 32-bit field. */
  lemma {:induction false} LeModulo(x: int, n: nat)
    ensures Le(x, n) == Le(x % Pow256(n), n)
    decreases n
  {
    if n > 0 {
      LowDigit(x, Pow256(n - 1));
      LeModulo(x / 256, n - 1);
    }
  }

  lemma Be32Modulo(x: int, y: int)
    requires x % TWO32 == y % TWO32
    ensures Be32(x) == Be32(y)
  {
    Pow256Values();
    LeModulo(x, 4);
    LeModulo(y, 4);
  }

  lemma SumModulo(x: int, n: int)
    ensures (x % TWO32 + n) % TWO32 == (x + n) % TWO32
  {
  }

  /** The header package after the codec data in `saved` was appended piece by piece. */
  function HeaderBytes(action: Byte, saved: Option<seq<Byte>>): (b: seq<Byte>) {
    if saved.None? then [] else Be32(1 + |saved.value|) + [action] + saved.value
  }

  function Appended(saved: Option<seq<Byte>>, piece: seq<Byte>): (r: Option<seq<Byte>>) {
    Some(if saved.None? then piece else saved.value + piece)
  }

  lemma FieldAndRest(field: seq<Byte>, action: Byte, data: seq<Byte>, piece: seq<Byte>)
    ensures field + ([action] + data) + piece == field + [action] + (data + piece)
  {
  }

  lemma HeaderGrows(action: Byte, saved: Option<seq<Byte>>, piece: seq<Byte>)
    requires saved.Some?
    ensures var b := HeaderBytes(action, saved);
      |b| >= HEAD && Be32(Size(b) + |piece|) + b[HEAD..] + piece == HeaderBytes(action, Appended(saved, piece))
  {
    hide Be32, Size;
    var data, b := saved.value, HeaderBytes(action, saved);
    var rest := [action] + data;
    assert b == Be32(1 + |data|) + rest by { Assoc(Be32(1 + |data|), [action], data); }
    SizeStored(1 + |data|, rest);
    SumModulo(1 + |data|, |piece|);
    Be32Modulo(Size(b) + |piece|, 1 + |data + piece|);
    assert b[HEAD..] == rest;
    FieldAndRest(Be32(1 + |data + piece|), action, data, piece);
  }

  class Encoder {
    const action: Byte
    var header: seq<Byte>
    ghost var saved: Option<seq<Byte>>

    ghost predicate Valid()
      reads this
    {
      header == HeaderBytes(action, saved)
    }

    constructor (action: Byte)
      ensures Valid() && this.action == action && saved == None
    {
      this.action := action;
      header, saved := [], None;
    }

    /** FreeHeader */
    method FreeHeader()
      modifies this
      ensures Valid() && saved == None
    {
      header, saved := [], None;
    }

    /** SaveHeader: the first piece makes the head; later ones add to its size field. */
    method SaveHeader(piece: seq<Byte>)
      requires Valid()
      modifies this
      ensures Valid() && saved == Appended(old(saved), piece)
    {
      hide Be32, Size;
      if header == [] {
        header := Be32(1 + |piece|) + [action];
      } else {
        HeaderGrows(action, saved, piece);
        header := Be32(Size(header) + |piece|) + header[HEAD..];
      }
      header := header + piece;
      saved := Appended(saved, piece);
    }

    /** Engine::WritePacket: the package every authorized session is given. */
    method WritePacket(packet: seq<Byte>) returns (buffer: seq<Byte>)
      ensures buffer == Package([action] + packet)
    {
      var b := new Byte[HEAD + 1 + |packet|](_ => 0);
      var size := Be32(1 + |packet|);
      forall i | 0 <= i < HEAD { b[i] := size[i]; }
      b[HEAD] := action;
      forall i | 0 <= i < |packet| { b[HEAD + 1 + i] := packet[i]; }
      buffer := b[..];
      assert buffer == size + ([action] + packet);
    }
  }

  /** The header's size field is exact, so a receiver splits the header off as one package,
      if and only if its payload is shorter than 2^32. */
  lemma HeaderIsPackageIffShort(action: Byte, data: seq<Byte>)
    ensures var b := HeaderBytes(action, Some(data));
      && |b| == HEAD + 1 + |data|
      && (HEAD + Size(b) == |b| <==> 1 + |data| < TWO32)
      && (1 + |data| < TWO32 ==> b == Package([action] + data) && Split(b) == ([[action] + data], []))
  {
    var b, p := HeaderBytes(action, Some(data)), [action] + data;
    Assoc(Be32(1 + |data|), [action], data);
    SizeStored(1 + |data|, p);
    assert b == Be32(|p|) + p;
    if 1 + |data| < TWO32 {
      hide Be32, Size;
      SplitFirst(p, []);
      assert Package(p) + [] == b;
      assert [p] + [] == [p];
    }
  }
}
