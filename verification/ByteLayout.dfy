/** Little-endian packing of unsigned fields, as `struct.Struct("<...")` packs them, and its inverse. */
module ByteLayout {
  import opened Wrappers
  import opened Sequences

  type Byte = b: nat | b < 256

  function Pow256(width: nat): (p: nat)
    ensures p > 0
  {
    if width == 0 then 1 else 256 * Pow256(width - 1)
  }

  /** The low `width` bytes of `n`, lowest first. */
  function LittleEndian(n: nat, width: nat): (bytes: seq<Byte>)
    ensures |bytes| == width
  {
    if width == 0 then [] else [n % 256] + LittleEndian(n / 256, width - 1)
  }

  function FromLittleEndian(bytes: seq<Byte>): nat {
    if bytes == [] then 0 else bytes[0] + 256 * FromLittleEndian(bytes[1..])
  }

  lemma {:induction false} LittleEndianRoundTrip(n: nat, width: nat)
    requires n < Pow256(width)
    ensures FromLittleEndian(LittleEndian(n, width)) == n
    decreases width
  {
    if width > 0 {
      LittleEndianRoundTrip(n / 256, width - 1);
      assert LittleEndian(n, width)[1..] == LittleEndian(n / 256, width - 1);
    }
  }

  /** Every value fits its field; packing anything else is an error. */
  predicate Fits(widths: seq<nat>, values: seq<nat>) {
    |values| == |widths| && forall i | 0 <= i < |widths| :: values[i] < Pow256(widths[i])
  }

  function Pack(widths: seq<nat>, values: seq<nat>): seq<Byte>
    requires Fits(widths, values)
  {
    if widths == [] then [] else LittleEndian(values[0], widths[0]) + Pack(widths[1..], values[1..])
  }

  function Total(widths: seq<nat>): nat {
    if widths == [] then 0 else widths[0] + Total(widths[1..])
  }

  /** The field values at the front of `bytes`, and what follows them. */
  function Unpack(widths: seq<nat>, bytes: seq<Byte>): Option<(seq<nat>, seq<Byte>)> {
    if widths == [] then Some(([], bytes))
    else if |bytes| < widths[0] then None
    else match Unpack(widths[1..], bytes[widths[0]..])
      case None => None
      case Some((values, rest)) => Some(([FromLittleEndian(bytes[..widths[0]])] + values, rest))
  }

  lemma {:induction false} PackRoundTrip(widths: seq<nat>, values: seq<nat>, rest: seq<Byte>)
    requires Fits(widths, values)
    ensures Unpack(widths, Pack(widths, values) + rest) == Some((values, rest))
    ensures |Pack(widths, values)| == Total(widths)
    decreases |widths|
  {
    if widths == [] {
      assert Pack(widths, values) + rest == rest;
    } else {
      var first, others := LittleEndian(values[0], widths[0]), Pack(widths[1..], values[1..]);
      Associative(first, others, rest);
      var bytes := Pack(widths, values) + rest;
      assert bytes[..widths[0]] == first && bytes[widths[0]..] == others + rest;
      LittleEndianRoundTrip(values[0], widths[0]);
      PackRoundTrip(widths[1..], values[1..], rest);
      assert [values[0]] + values[1..] == values;
    }
  }

  lemma FieldLimits()
    ensures Pow256(1) == 0x100 && Pow256(2) == 0x1_0000 && Pow256(4) == 0x1_0000_0000
  {
    assert Pow256(3) == 0x100_0000;
  }

  // ----- fields at their offsets

  /** The little-endian numbers that stand at an offset, of two bytes and of four. */
  function Word(b: seq<Byte>, at: nat): nat
    requires at + 2 <= |b|
  {
    b[at] as int + 0x100 * b[at + 1] as int
  }

  function Dword(b: seq<Byte>, at: nat): nat
    requires at + 4 <= |b|
  {
    Word(b, at) + 0x1_0000 * Word(b, at + 2)
  }

  lemma {:induction false} NextOffset(widths: seq<nat>, k: nat)
    requires k < |widths|
    ensures Total(widths[..k + 1]) == Total(widths[..k]) + widths[k]
  {
    if k > 0 {
      assert widths[..k + 1][1..] == widths[1..][..k] && widths[..k][1..] == widths[1..][..k - 1];
      NextOffset(widths[1..], k - 1);
    }
  }

  /** Each field's bytes stand where those before it end. */
  lemma {:induction false} FieldBytes(widths: seq<nat>, values: seq<nat>, k: nat, rest: seq<Byte>)
    requires Fits(widths, values) && k < |widths|
    ensures var at, b := Total(widths[..k]), Pack(widths, values) + rest;
            at + widths[k] <= |b| && b[at..at + widths[k]] == LittleEndian(values[k], widths[k])
    decreases k
  {
    var first, others := LittleEndian(values[0], widths[0]), Pack(widths[1..], values[1..]);
    Associative(first, others, rest);
    if k > 0 {
      var at := Total(widths[1..][..k - 1]);
      assert widths[..k][1..] == widths[1..][..k - 1];
      FieldBytes(widths[1..], values[1..], k - 1, rest);
      SliceOfSecond(first, others + rest, at, at + widths[k]);
    }
  }

  lemma BytesOfLittleEndian(n: nat)
    ensures n < 0x100 ==> LittleEndian(n, 1)[0] == n
    ensures n < 0x1_0000 ==> Word(LittleEndian(n, 2), 0) == n
    ensures n < 0x1_0000_0000 ==> Dword(LittleEndian(n, 4), 0) == n
  {
    assert LittleEndian(n, 2) == [n % 256] + ([n / 256 % 256] + LittleEndian(n / 256 / 256, 0));
    assert LittleEndian(n, 4) == [n % 256] + ([n / 256 % 256] + LittleEndian(n / 256 / 256, 2));
    var m := n / 256 / 256;
    assert LittleEndian(m, 2) == [m % 256] + ([m / 256 % 256] + LittleEndian(m / 256 / 256, 0));
  }

  /** A packed field of one, two or four bytes is the number that stands at its offset. */
  lemma FieldIsRead(widths: seq<nat>, values: seq<nat>, k: nat, rest: seq<Byte>, at: nat)
    requires Fits(widths, values) && k < |widths| && at == Total(widths[..k])
    ensures var b := Pack(widths, values) + rest;
            && at + widths[k] <= |b|
            && (widths[k] == 1 ==> b[at] == values[k])
            && (widths[k] == 2 ==> Word(b, at) == values[k])
            && (widths[k] == 4 ==> Dword(b, at) == values[k])
  {
    var b := Pack(widths, values) + rest;
    FieldBytes(widths, values, k, rest);
    BytesOfLittleEndian(values[k]);
    FieldLimits();
    var field := b[at..at + widths[k]];
    assert forall i | 0 <= i < widths[k] :: field[i] == b[at + i];
  }
}
