/** The pool of open files (fs.c): ten slots over a read-only list of named files. */
module FileSystem {
  import opened Base

  const LWIP_MAX_OPEN_FILES := 10

  datatype FsFile = FsFile(data: string, len: nat, index: nat)
  datatype FsSlot = FsSlot(file: FsFile, inuse: bool)
  datatype FsData = FsData(name: string, data: string)

  /** Entry `i` is the first one that is named `name`. */
  predicate IsFirst(root: seq<FsData>, name: string, i: nat) {
    i < |root| && CString(root[i].name) == CString(name) &&
    forall j :: 0 <= j < i ==> CString(root[j].name) != CString(name)
  }

  /** No entry is named `name`. */
  predicate IsMissing(root: seq<FsData>, name: string) {
    forall j :: 0 <= j < |root| ==> CString(root[j].name) != CString(name)
  }

  /** The contents of the first listed file named `name`. */
  function Find(root: seq<FsData>, name: string): Option<string> {
    if root == [] then None
    else if CString(root[0].name) == CString(name) then Some(root[0].data)
    else Find(root[1..], name)
  }

  /** The first entry, and then the others, one place further on. */
  lemma FindOne(root: seq<FsData>, name: string)
    ensures root == [] ==> IsMissing(root, name) && forall i: nat :: !IsFirst(root, name, i)
    ensures root != [] && CString(root[0].name) == CString(name) ==>
              IsFirst(root, name, 0) && !IsMissing(root, name) && forall i: nat :: IsFirst(root, name, i) ==> i == 0
    ensures root != [] && CString(root[0].name) != CString(name) ==>
              (IsMissing(root, name) <==> IsMissing(root[1..], name)) &&
              (forall i: nat :: IsFirst(root[1..], name, i) ==> IsFirst(root, name, i + 1)) &&
              (forall i: nat :: IsFirst(root, name, i) ==> i > 0 && IsFirst(root[1..], name, i - 1))
  {
    hide CString;
    if root != [] && CString(root[0].name) != CString(name) && IsMissing(root[1..], name) {
      forall j | 0 <= j < |root| ensures CString(root[j].name) != CString(name) {
        if j > 0 { assert root[1..][j - 1] == root[j]; }
      }
    }
  }

  /** Nothing is found exactly if no entry has the name, and else the data of the first that
      has it. */
  lemma {:induction false} FindIs(root: seq<FsData>, name: string)
    ensures Find(root, name).None? <==> IsMissing(root, name)
    ensures Find(root, name).Some? <==> exists i: nat :: IsFirst(root, name, i)
    ensures forall i: nat :: IsFirst(root, name, i) ==> Find(root, name) == Some(root[i].data)
  {
    hide CString, IsMissing;
    FindOne(root, name);
    if root != [] {
      FindIs(root[1..], name);
      forall i: nat | IsFirst(root, name, i) && i > 0 ensures root[1..][i - 1] == root[i] { }
    }
  }

  class FsMemory {
    const memory: array<FsSlot>
    const root: seq<FsData>

    ghost predicate Valid() {
      memory.Length == LWIP_MAX_OPEN_FILES
    }

    ghost function InUse(): set<nat>
      reads memory
    {
      set i: nat | i < memory.Length && memory[i].inuse
    }

    ghost predicate IsFull()
      reads memory
    {
      forall i :: 0 <= i < memory.Length ==> memory[i].inuse
    }

    /** Slot `i` holds an opened file: as fs_open leaves it, it is read to its end. */
    ghost predicate Holds(i: nat, data: string)
      reads memory
    {
      i < memory.Length && memory[i] == FsSlot(FsFile(data, |data|, |data|), true)
    }

    constructor (root: seq<FsData>)
      ensures Valid() && fresh(memory) && InUse() == {} && this.root == root
    {
      this.root := root;
      memory := new FsSlot[LWIP_MAX_OPEN_FILES](_ => FsSlot(FsFile("", 0, 0), false));
    }

    method Malloc() returns (slot: Option<nat>)
      requires Valid()
      modifies memory
      ensures slot.None? <==> old(IsFull())
      ensures slot.None? ==> memory[..] == old(memory[..])
      ensures slot.Some? ==>
        slot.value < memory.Length && !old(memory[slot.value].inuse) &&
        (forall i :: 0 <= i < slot.value ==> old(memory[i].inuse)) &&
        memory[..] == old(memory[..])[slot.value := old(memory[slot.value]).(inuse := true)]
    {
      for i := 0 to LWIP_MAX_OPEN_FILES
        invariant memory[..] == old(memory[..])
        invariant forall j :: 0 <= j < i ==> memory[j].inuse
      {
        if !memory[i].inuse {
          memory[i] := memory[i].(inuse := true);
          return Some(i);
        }
      }
      return None;
    }

    method Free(slot: nat)
      requires Valid() && slot < memory.Length
      modifies memory
      ensures memory[..] == old(memory[..])[slot := old(memory[slot]).(inuse := false)]
      ensures InUse() == old(InUse()) - {slot}
    {
      for i := 0 to LWIP_MAX_OPEN_FILES
        invariant i <= slot
        invariant memory[..] == old(memory[..])
      {
        if i == slot {
          memory[i] := memory[i].(inuse := false);
          break;
        }
      }
      assert memory[slot] == old(memory[slot]).(inuse := false);
    }

    method Open(name: string) returns (slot: Option<nat>)
      requires Valid()
      modifies memory
      ensures slot.Some? <==> !old(IsFull()) && Find(root, name).Some?
      // in terms of the list: a missing file is not opened, and of several the first is
      ensures IsMissing(root, name) ==> slot.None?
      ensures forall i: nat :: IsFirst(root, name, i) ==> if old(IsFull()) then slot.None?
                                                          else slot.Some? && Holds(slot.value, root[i].data)
      ensures slot.None? ==> memory[..] == old(memory[..]) && InUse() == old(InUse())
      ensures slot.Some? ==>
        slot.value < memory.Length && slot.value !in old(InUse()) &&
        InUse() == old(InUse()) + {slot.value} &&
        Holds(slot.value, Find(root, name).value) &&
        memory[..] == old(memory[..])[slot.value := memory[slot.value]]
    {
      FindIs(root, name);
      slot := Malloc();
      if slot.Some? {
        var found := Fill(slot.value, name);
        if !found {
          Free(slot.value);
          assert memory[..] == old(memory[..]);
          slot := None;
        }
      }
    }

    /** The search of fs_open: the first file named `name` is put into slot `s`. */
    method Fill(s: nat, name: string) returns (found: bool)
      requires Valid() && s < memory.Length
      modifies memory
      ensures found <==> Find(root, name).Some?
      ensures !found ==> memory[..] == old(memory[..])
      ensures found ==>
        var data := Find(root, name).value;
        memory[..] == old(memory[..])[s := old(memory[s]).(file := FsFile(data, |data|, |data|))]
    {
      assert root[0..] == root;
      for f := 0 to |root|
        invariant Find(root, name) == Find(root[f..], name)
        invariant memory[..] == old(memory[..])
      {
        assert root[f..][1..] == root[f + 1..];
        if CString(root[f].name) == CString(name) {
          var data := root[f].data;
          memory[s] := memory[s].(file := FsFile(data, |data|, |data|));
          return true;
        }
      }
      return false;
    }

    method Close(slot: nat)
      requires Valid() && slot < memory.Length
      modifies memory
      ensures memory[..] == old(memory[..])[slot := old(memory[slot]).(inuse := false)]
      ensures InUse() == old(InUse()) - {slot}
    {
      Free(slot);
    }

    /** None stands for the result -1: the end of the file. */
    method Read(slot: nat, count: nat) returns (chunk: Option<string>)
      requires Valid() && slot < memory.Length
      requires memory[slot].file.index <= memory[slot].file.len == |memory[slot].file.data|
      modifies memory
      ensures var f := old(memory[slot].file);
              var next := if f.len - f.index > count then f.index + count else f.len;
              chunk == (if f.index == f.len then None else Some(f.data[f.index..next])) &&
              memory[..] == old(memory[..])[slot := old(memory[slot]).(file := f.(index := next))]
    {
      var f := memory[slot].file;
      if f.index == f.len {
        return None;
      }
      var read := f.len - f.index;
      if read > count {
        read := count;
      }
      chunk := Some(f.data[f.index..f.index + read]);
      memory[slot] := memory[slot].(file := f.(index := f.index + read));
    }
  }
}
