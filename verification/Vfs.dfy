// kernel/vfs.c: file descriptors over the file table.
module Vfs {
  import opened Words
  import opened HeapBlocks
  import opened Heap
  import opened FileTable
  import opened FileStore

  const MAX_FD := 16

  datatype File = File(used: bool, name: string, data: Ptr, size: nat, offset: nat, flags: int)

  // Each chunk, as long as there is something left.
  function Sum(lens: seq<nat>): nat { if lens == [] then 0 else Sum(lens[..|lens| - 1]) + lens[|lens| - 1] }

  function AtMost(n: nat, bound: nat): nat { if n <= bound then n else bound }

  // One more chunk of what is ahead.
  lemma Chunk(all: seq<Byte>, got: seq<Byte>, buf: seq<Byte>, ahead: seq<Byte>, left: seq<Byte>, lens: seq<nat>, i: nat)
    requires i < |lens| && all == got + ahead && ahead == buf + left
    requires |got| == AtMost(Sum(lens[..i]), |all|) && |buf| == AtMost(lens[i], |ahead|)
    ensures all == got + buf + left && |got + buf| == AtMost(Sum(lens[..i + 1]), |all|)
  {
    assert lens[..i + 1][..i] == lens[..i];
  }

  // How many bytes vfs_read copies: the sum it compares is a size_t.
  function ToRead(offset: Word, size: Word, len: Word): nat
    requires offset < size
  {
    if Wrap(offset + len) > size then size - offset else len
  }

  // It is as many as are asked for and left just when the sum does not wrap; when it wraps
  // the length asked for is taken whatever is left.
  lemma ReadFits(offset: Word, size: Word, len: Word)
    requires offset < size
    ensures ToRead(offset, size, len) == AtMost(len, size - offset) <==> offset + len < 0x1_0000_0000_0000_0000
    ensures offset + len >= 0x1_0000_0000_0000_0000 ==> ToRead(offset, size, len) == len > size - offset
  {
  }

  // At offset 1 of 10 bytes, the largest length.
  lemma ReadPastEnd(offset: Word, size: Word, len: Word)
    requires offset == 1 && size == 10 && len == 0xFFFF_FFFF_FFFF_FFFF
    ensures ToRead(offset, size, len) == 0xFFFF_FFFF_FFFF_FFFF > AtMost(len, size - offset)
  {
  }

  // None of these reads wraps, from this offset on in a file of this size.
  predicate NoneWraps(offset: nat, size: nat, lens: seq<Word>) {
    forall i | 0 <= i < |lens| ::
      offset + Sum(lens[..i]) >= size || offset + Sum(lens[..i]) + lens[i] < 0x1_0000_0000_0000_0000
  }

  // The descriptors from 3 up to n are all in use.
  predicate AllUsed(fds: seq<File>, n: int) { forall fd | 3 <= fd < n && fd < |fds| :: fds[fd].used }

  class Descriptors {
    const store: Initrd
    const fds: array<File>

    ghost predicate Valid()
      reads this, fds, store, store.files, store.heap, store.heap.mem
    {
      && store.Valid() && fds.Length == MAX_FD
      && forall i | 0 <= i < 3 :: fds[i].used && fds[i].size == 0 && fds[i].offset == 0
    }

    // fd reads an entry that is in the table as it was when fd was opened.
    ghost predicate Follows(fd: nat)
      reads this, fds, store, store.files
      requires fd < fds.Length && store.count <= store.files.Length
    {
      var f := fds[fd];
      f.used && f.offset <= f.size && Entry(f.name, f.data, f.size) in store.Table()
    }

    // The bytes fd has before it.
    ghost function Ahead(fd: nat): seq<Byte>
      reads this, fds, store, store.files, store.heap, store.heap.mem
      requires Valid() && fd < MAX_FD && Follows(fd)
    {
      FollowedSize(fd);
      store.contents[fds[fd].name][fds[fd].offset..]
    }

    lemma FollowedSize(fd: nat)
      requires Valid() && fd < MAX_FD && Follows(fd)
      ensures fds[fd].name in store.contents && |store.contents[fds[fd].name]| == fds[fd].size
      ensures var f := fds[fd];
        EntryHolds(Entry(f.name, f.data, f.size), store.contents[f.name], store.statics, store.Mem())
    {
      var i :| 0 <= i < store.count && store.Table()[i] == Entry(fds[fd].name, fds[fd].data, fds[fd].size);
    }

    // vfs_init.
    constructor (store: Initrd)
      requires store.Valid()
      ensures Valid() && this.store == store && fresh(fds)
      ensures forall i | 3 <= i < MAX_FD :: !fds[i].used
    {
      this.store := store;
      fds := new File[MAX_FD](i => File(i < 3, "", Null, 0, 0, if i == 1 || i == 2 then 1 else 0));
    }

    // Lines 30-48.
    method Open(path: string, flags: int) returns (r: int)
      requires Valid()
      modifies fds
      ensures Valid() && (r == -1 || 3 <= r < MAX_FD)
      ensures r == -1 <==> Strip(path) !in store.contents || AllUsed(old(fds[..]), MAX_FD)
      ensures r == -1 ==> fds[..] == old(fds[..])
      ensures r != -1 ==> AllUsed(old(fds[..]), r)
      ensures r != -1 ==> Follows(r) && fds[r].name == Strip(path) && fds[r].offset == 0 && !old(fds[r].used)
      ensures forall fd | 0 <= fd < MAX_FD && fd != r :: fds[fd] == old(fds[fd])
    {
      var name := Strip(path);
      var i := Scan(name);
      if i == store.count {
        return -1;
      }
      var fd := 3;
      while fd < MAX_FD && fds[fd].used
        invariant 3 <= fd <= MAX_FD && AllUsed(fds[..], fd)
      {
        fd := fd + 1;
      }
      if fd == MAX_FD {
        return -1;
      }
      var e := store.files[i];
      fds[fd] := File(true, name, e.data, e.size, 0, flags);
      assert store.Table()[i] == e;
      r := fd;
    }

    // The table up to the empty name.
    method Scan(name: string) returns (i: nat)
      requires Valid()
      ensures i <= store.count && (i == store.count <==> name !in store.contents)
      ensures i < store.count ==> store.files[i].name == name
    {
      i := 0;
      while store.files[i].name != "" && store.files[i].name != name
        invariant i <= store.count && forall k | 0 <= k < i :: store.Table()[k].name != name
        decreases store.count - i
      {
        i := i + 1;
      }
      if i < store.count { assert store.Table()[i].name in store.contents; }
    }

    // Lines 49-54.
    method Close(fd: int) returns (r: int)
      requires Valid()
      modifies fds
      ensures Valid() && r == if 3 <= fd < MAX_FD && old(fds[..])[fd].used then 0 else -1
      ensures r == 0 ==> !fds[fd].used
      ensures forall k | 0 <= k < MAX_FD && (k != fd || r != 0) :: fds[k] == old(fds[k])
    {
      if fd < 0 || fd >= MAX_FD || !fds[fd].used || fd < 3 {
        return -1;
      }
      fds[fd] := fds[fd].(used := false);
      r := 0;
    }

    // Lines 55-65.
    method Read(fd: int, len: Word) returns (r: int, buf: seq<Byte>)
      requires Valid() && (3 <= fd < MAX_FD && fds[fd].used ==> Follows(fd))
      requires 0 <= fd < MAX_FD ==> NoneWraps(fds[fd].offset, fds[fd].size, [len])
      modifies fds
      ensures Valid()
      ensures r == -1 <==> !(0 <= fd < MAX_FD && old(fds[..])[fd].used)
      ensures r == -1 || 0 <= fd < 3 ==> buf == [] && fds[..] == old(fds[..])
      ensures 0 <= fd < 3 ==> r == 0
      ensures r != -1 && fd >= 3 ==> 0 <= r == |buf| == AtMost(len, |old(Ahead(fd))|) && Follows(fd)
      ensures r != -1 && fd >= 3 ==> old(Ahead(fd)) == buf + Ahead(fd)
      ensures r != -1 ==> fds[fd] == old(fds[..])[fd].(offset := old(fds[..])[fd].offset + r)
      ensures forall k | 0 <= k < MAX_FD && k != fd :: fds[k] == old(fds[k])
    {
      buf := [];
      if fd < 0 || fd >= MAX_FD || !fds[fd].used {
        return -1, [];
      }
      if fd == 0 || fds[fd].offset >= fds[fd].size {
        return 0, [];
      }
      var f := fds[fd];
      assert [len][..0] == [];
      var toRead := if Wrap(f.offset + len) > f.size then f.size - f.offset else len;
      buf := CopyOut(fd, toRead);
      fds[fd] := f.(offset := f.offset + toRead);
      r := toRead;
    }

    method CopyOut(fd: nat, n: nat) returns (buf: seq<Byte>)
      requires Valid() && fd < MAX_FD && Follows(fd) && fds[fd].offset + n <= fds[fd].size
      ensures buf == Ahead(fd)[..n]
    {
      var f := fds[fd];
      FollowedSize(fd);
      buf := [];
      var i := 0;
      while i < n
        invariant i <= n && buf == Ahead(fd)[..i]
      {
        var b := ByteAt(f.data, f.offset + i, store.contents[f.name], Entry(f.name, f.data, f.size));
        buf := buf + [b];
        i := i + 1;
      }
    }

    method ByteAt(d: Ptr, k: nat, ghost bytes: seq<Byte>, ghost e: Entry) returns (b: Byte)
      requires store.Valid() && k < |bytes| && e.data == d && EntryHolds(e, bytes, store.statics, store.Mem())
      ensures b == bytes[k]
    {
      match d
      case Static(s) => b := store.statics[s][k];
      case Block_(p) =>
        ghost var blk :| blk in Live(store.heap.blocks) && HoldsAt(store.Mem(), blk, p, bytes);
        assert store.heap.mem[..][p - store.heap.base + k] == Payload(bytes[k]);
        b := store.heap.mem[p - store.heap.base + k].b;
    }

    // Lines 74-78: the name of the entry at idx.
    method Readdir(idx: int) returns (r: int, name: string)
      requires Valid()
      ensures r == if 0 <= idx < store.count then 0 else -1
      ensures r == 0 ==> name in store.contents && name == store.files[idx].name
    {
      if idx < 0 || idx >= store.count {
        return -1, "";
      }
      r, name := 0, store.files[idx].name;
      assert store.Table()[idx].name in store.contents;
    }

    // vfs_save: the descriptors of other files go on reading what they read.
    method Save(path: string, data: seq<Byte>) returns (r: int)
      requires Valid() && (path == "" || NameOk(Strip(path))) && |data| <= 0x1_0000_0000_0000_0000 - 16
      modifies store`count, store`contents, store.files, store.heap`blocks, store.heap.mem
      ensures Valid()
      ensures r == 0 || r == -1
      ensures r == 0 <==> old(CanSave(path, data))
      ensures store.contents == if r == 0 then old(store.contents)[Strip(path) := data] else old(store.contents)
      ensures forall fd: nat | fd < MAX_FD && old(Follows(fd)) && fds[fd].name != Strip(path) ::
        Follows(fd) && Ahead(fd) == old(Ahead(fd))
    {
      ghost var following: set<nat> := set fd: nat | fd < MAX_FD && Follows(fd) && fds[fd].name != Strip(path);
      ghost var t := store.Table();
      r := store.Save(path, data);
      forall fd: nat | fd in following ensures Follows(fd) {
        Stays(t, fd, Strip(path));
      }
    }

    lemma Stays(t: seq<Entry>, fd: nat, name: string)
      requires Valid() && fd < MAX_FD && fds[fd].used && fds[fd].offset <= fds[fd].size && fds[fd].name != name
      requires Entry(fds[fd].name, fds[fd].data, fds[fd].size) in t
      requires OthersStay(t, store.Table(), name) || t == store.Table()
      ensures Follows(fd)
    {
    }

    ghost predicate CanSave(path: string, data: seq<Byte>)
      reads store, store.heap
    {
      && path != ""
      && !NoFit(store.heap.blocks, RoundUp(if 0 < |data| < 0x1_0000_0000_0000_0000 then |data| else 1))
      && (Strip(path) in store.contents || store.count < MAX_FILES - 1)
    }

    // vfs_remove.
    method Remove(path: string) returns (r: int)
      requires Valid()
      modifies store`count, store`contents, store.files, store.heap`blocks, store.heap.mem
      ensures Valid()
      ensures r == if Strip(path) in old(store.contents) then 0 else -1
      ensures store.contents == old(store.contents) - {Strip(path)}
      ensures forall fd: nat | fd < MAX_FD && old(Follows(fd)) && fds[fd].name != Strip(path) ::
        Follows(fd) && Ahead(fd) == old(Ahead(fd))
    {
      ghost var following: set<nat> := set fd: nat | fd < MAX_FD && Follows(fd) && fds[fd].name != Strip(path);
      ghost var t := store.Table();
      r := store.Remove(path);
      forall fd: nat | fd in following ensures Follows(fd) {
        Stays(t, fd, Strip(path));
      }
    }

    // Reads of these lengths, one after the other.
    method ReadAll(fd: nat, lens: seq<Word>) returns (got: seq<Byte>)
      requires Valid() && 3 <= fd < MAX_FD && Follows(fd) && NoneWraps(fds[fd].offset, fds[fd].size, lens)
      modifies fds
      ensures Valid() && Follows(fd) && old(Ahead(fd)) == got + Ahead(fd)
      ensures |got| == AtMost(Sum(lens), |old(Ahead(fd))|)
      ensures forall k | 0 <= k < MAX_FD && k != fd :: fds[k] == old(fds[k])
    {
      got := [];
      ghost var all, f := Ahead(fd), fds[fd];
      FollowedSize(fd);
      assert lens[..0] == [];
      var i := 0;
      while i < |lens|
        invariant i <= |lens| && Valid() && Follows(fd) && all == got + Ahead(fd)
        invariant |got| == AtMost(Sum(lens[..i]), |all|) && fds[fd] == f.(offset := f.offset + |got|)
        invariant forall k | 0 <= k < MAX_FD && k != fd :: fds[k] == old(fds[k])
      {
        ghost var ahead := Ahead(fd);
        assert [lens[i]][..0] == [];
        var r, buf := Read(fd, lens[i]);
        Chunk(all, got, buf, ahead, Ahead(fd), lens, i);
        got := got + buf;
        i := i + 1;
      }
      assert lens[..i] == lens;
    }

    // Saved, opened and read back in chunks: the bytes saved, if the chunks suffice.
    method RoundTrip(path: string, again: string, data: seq<Byte>, lens: seq<Word>)
      returns (ok: bool, got: seq<Byte>)
      requires NoneWraps(0, |data|, lens) && SameFile(path, again)
      requires Valid() && NameOk(Strip(path)) && |data| <= 0x1_0000_0000_0000_0000 - 16
      modifies fds, store`count, store`contents, store.files, store.heap`blocks, store.heap.mem
      ensures Valid()
      ensures ok == (old(CanSave(path, data)) && !AllUsed(old(fds[..]), MAX_FD))
      ensures ok ==> store.contents == old(store.contents)[Strip(path) := data]
      ensures ok ==> got == data[..AtMost(Sum(lens), |data|)]
      ensures ok && Sum(lens) >= |data| ==> got == data
    {
      ok, got := false, [];
      SlashStripped(path, again);
      var r := Save(path, data);
      if r == 0 {
        var fd := Open(again, 0);
        if fd >= 0 {
          FollowedSize(fd);
          got := ReadAll(fd, lens);
          assert data[0..] == data;
          var c := Close(fd);
          ok := true;
        }
      }
    }
  }
}
