/** Translation tables as arrays of little-endian 64-bit entries. */
module BootTables {
  import opened Powers
  import opened Bytes

  function Entry(t: seq<Byte>, i: nat): nat
    requires |t| == 4096 && i < 512
  {
    ReadLe(t, 8 * i, 8)
  }

  function EntryOf(a: array<Byte>, i: nat): nat
    requires a.Length == 4096 && i < 512
    reads a
  {
    Entry(a[..], i)
  }

  /** Writes one entry of a table. */
  method PutEntry(a: array<Byte>, i: nat, x: nat)
    requires a.Length == 4096 && i < 512 && x < WORD
    modifies a
    ensures forall j: nat :: j < 512 ==> EntryOf(a, j) == if j == i then x else old(EntryOf(a, j))
  {
    var bytes := Le(x, 8);
    LeLength(x, 8);
    ghost var was := a[..];
    var k := 0;
    while k < 8
      invariant 0 <= k <= 8
      invariant forall b :: 0 <= b < 4096 ==> a[b] == if 8 * i <= b < 8 * i + k then bytes[b - 8 * i] else was[b]
    {
      a[8 * i + k] := bytes[k];
      k := k + 1;
    }
    EntriesAfterPut(was, a[..], i, x);
  }

  lemma EntriesAfterPut(was: seq<Byte>, t: seq<Byte>, i: nat, x: nat)
    requires |was| == |t| == 4096 && i < 512 && x < WORD && |Le(x, 8)| == 8
    requires forall b :: 0 <= b < 4096 ==> t[b] == if 8 * i <= b < 8 * i + 8 then Le(x, 8)[b - 8 * i] else was[b]
    ensures forall j: nat :: j < 512 ==> Entry(t, j) == if j == i then x else Entry(was, j)
  {
    forall j: nat | j < 512
      ensures Entry(t, j) == if j == i then x else Entry(was, j)
    {
      if j == i {
        assert t[8 * i..8 * i + 8] == Le(x, 8);
        Fits8(x);
        ReadBack(t, 8 * i, 8, x);
      } else {
        assert t[8 * j..8 * j + 8] == was[8 * j..8 * j + 8];
      }
    }
  }

  /** A table without entries. */
  method EmptyTable() returns (a: array<Byte>)
    ensures fresh(a) && a.Length == 4096 && forall j: nat :: j < 512 ==> EntryOf(a, j) == 0
  {
    a := new Byte[4096](_ => 0);
    forall j: nat | j < 512
      ensures EntryOf(a, j) == 0
    {
      ZeroValue(a[..][8 * j..8 * j + 8]);
    }
  }
}
