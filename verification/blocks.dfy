/** The tar blocks of the storage packer: regular files, in order, up to eight mebibytes a block. */
module Blocks {
  import opened Packing

  datatype Entry = Entry(name: string, isFile: bool, bytes: nat)

  const BLOCK_BYTES: nat := 8 * 1024 * 1024

  function Bytes(): Entry -> nat {
    (e: Entry) => e.bytes
  }

  function Files(entries: seq<Entry>): seq<Entry> {
    if entries == [] then []
    else
      var earlier, e := Files(entries[..|entries| - 1]), entries[|entries| - 1];
      if e.isFile then earlier + [e] else earlier
  }

  method Group(entries: seq<Entry>) returns (groups: seq<seq<Entry>>)
    ensures groups == Pack(Files(entries), Bytes(), BLOCK_BYTES)
  {
    groups := [];
    var current: seq<Entry>, size := [], 0;
    for i := 0 to |entries|
      invariant size == Size(current, Bytes()) && (current == [] ==> groups == [])
      invariant Pack(Files(entries[..i]), Bytes(), BLOCK_BYTES) == WithOpen(groups, current)
    {
      var p := entries[i];
      assert entries[..i + 1][..i] == entries[..i];
      if p.isFile {
        PackOneMore(Files(entries[..i]), p);
        PlaceOpen(groups, current, p, Bytes(), BLOCK_BYTES);
        SizeOneMore(current, p, Bytes());
        SizeOneMore([], p, Bytes());
        if current != [] && size + p.bytes > BLOCK_BYTES {
          groups := groups + [current];
          current, size := [], 0;
        }
        current := current + [p];
        size := size + p.bytes;
      }
    }
    assert entries[..|entries|] == entries;
    if current != [] {
      groups := groups + [current];
    }
  }

  lemma PackOneMore(files: seq<Entry>, p: Entry)
    ensures Pack(files + [p], Bytes(), BLOCK_BYTES) == Place(Pack(files, Bytes(), BLOCK_BYTES), p, Bytes(), BLOCK_BYTES)
  {
    assert (files + [p])[..|files|] == files;
  }

  /** Every file is in exactly one block, in order; a block over the limit is one oversize file by itself; and no
      division into blocks with those properties uses fewer. */
  lemma BlocksLosslessAndOptimal(entries: seq<Entry>, other: seq<seq<Entry>>)
    requires Grouping(other, Files(entries), Bytes(), 8388608)
    ensures var blocks := Pack(Files(entries), Bytes(), 8388608);
            && Flatten(blocks) == Files(entries)
            && (forall b: seq<Entry> <- blocks ::
                  b != [] && (Size(b, Bytes()) <= 8388608 || (|b| == 1 && b[0].bytes > 8388608)))
            && |blocks| <= |other|
  {
    PackGroups(Files(entries), Bytes(), 8388608);
    PackOptimal(Files(entries), other, Bytes(), 8388608);
    forall b: seq<Entry> | b in Pack(Files(entries), Bytes(), 8388608) && |b| == 1
      ensures Size(b, Bytes()) == b[0].bytes
    {
      assert b[..0] == [];
    }
  }

  /** And in the listed order: what is listed first comes first. */
  lemma {:induction false} FilesInOrder(a: seq<Entry>, b: seq<Entry>)
    ensures Files(a + b) == Files(a) + Files(b)
  {
    if b == [] {
      assert a + b == a;
    } else {
      FilesInOrder(a, b[..|b| - 1]);
      assert (a + b)[..|a + b| - 1] == a + b[..|b| - 1];
    }
  }

  /** The packed files are the regular ones, each as often as listed. */
  lemma {:induction false} FilesTell(entries: seq<Entry>, e: Entry)
    ensures multiset(Files(entries))[e] == if e.isFile then multiset(entries)[e] else 0
  {
    if entries != [] {
      FilesTell(entries[..|entries| - 1], e);
      assert entries == entries[..|entries| - 1] + [entries[|entries| - 1]];
    }
  }
}
