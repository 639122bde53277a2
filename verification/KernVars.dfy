// The kernel variables that cyclictest sets and puts back: a table of at most
// KVARS backups, filled on the way and written back in the end.
module KernVars {
  import opened DecimalText

  const KVARS: nat := 32
  const KVARNAMELEN: nat := 32

  /** The size of procfilename. */
  const PATHLEN: nat := 128
  const PREFIX: string := "/proc/sys/kernel/"

  /** A used entry of the table. */
  datatype Entry = Entry(name: string, value: Int32)

  /** What the kernel lets the program do, and the variables it has. */
  datatype Kernel = Kernel(readable: set<string>, writable: set<string>, vars: map<string, Int32>)

  datatype State = State(table: seq<Entry>, kernel: Kernel)

  /** kernvar(O_RDONLY, ...) succeeds. */
  predicate CanRead(k: Kernel, name: string) {
    name in k.vars && name in k.readable
  }

  /** kernvar(O_WRONLY, ...). */
  function Written(k: Kernel, name: string, value: Int32): Kernel {
    if name in k.vars && name in k.writable then k.(vars := k.vars[name := value]) else k
  }

  predicate Listed(table: seq<Entry>, name: string) {
    exists i :: 0 <= i < |table| && table[i].name == name
  }

  /** The table after setkernvar has looked at it. */
  function Backed(s: State, name: string): seq<Entry> {
    if CanRead(s.kernel, name) && name != "" && !Listed(s.table, name) && |s.table| < KVARS
    then s.table + [Entry(name, s.kernel.vars[name])]
    else s.table
  }

  /** setkernvar. */
  function SetVar(s: State, name: string, value: Int32): State {
    State(Backed(s, name), Written(s.kernel, name, value))
  }

  /** The name and its terminator fit the path they are put into and, if it is
      backed up, an entry of the table; what happens to others is not defined. */
  predicate NameFits(s: State, name: string) {
    && |PREFIX| + |name| < PATHLEN
    && (Backed(s, name) != s.table ==> |name| < KVARNAMELEN)
  }

  /** The first n entries written back. */
  function WrittenBack(k: Kernel, table: seq<Entry>, n: nat): Kernel
    requires n <= |table|
  {
    if n == 0 then k else Written(WrittenBack(k, table, n - 1), table[n - 1].name, table[n - 1].value)
  }

  /** restorekernvars. */
  function Restored(s: State): Kernel {
    WrittenBack(s.kernel, s.table, |s.table|)
  }

  // --- the program ------------------------------------------------------------------

  class Program {
    /** kv; an entry with an empty name is unused. */
    const kv: array<Entry>
    var kernel: Kernel

    ghost var used: nat

    constructor (k: Kernel)
      ensures Valid() && View() == State([], k) && fresh(kv)
    {
      kv := new Entry[KVARS](_ => Entry("", 0));
      kernel := k;
      used := 0;
    }

    ghost predicate Valid()
      reads this, kv
    {
      && kv.Length == KVARS && used <= KVARS
      && (forall i :: 0 <= i < used ==> kv[i].name != "")
      && (forall i :: used <= i < KVARS ==> kv[i].name == "")
    }

    ghost function View(): State
      reads this, kv
      requires Valid()
    {
      State(kv[..used], kernel)
    }

    /** kernvar(O_RDONLY, ...): the text the kernel shows, read as a number. */
    method KernvarRead(name: string) returns (failed: bool, value: Int32)
      ensures !failed <==> CanRead(kernel, name)
      ensures !failed ==> value == kernel.vars[name]
    {
      failed, value := true, 0;
      if name in kernel.vars && name in kernel.readable {
        FormatRead(kernel.vars[name] as int);
        FormatFits(kernel.vars[name]);
        var buffer := Format(kernel.vars[name] as int);
        var (number, used) := Strtol(buffer);
        if used != 0 {
          failed, value := false, number as Int32;
        }
      }
    }

    /** kernvar(O_WRONLY, ...): the kernel takes the number that the text says;
        nothing else changes. */
    method KernvarWrite(name: string, value: Int32) returns (failed: bool)
      modifies `kernel
      ensures kernel.readable == old(kernel).readable && kernel.writable == old(kernel).writable
      ensures kernel.vars.Keys == old(kernel).vars.Keys
      ensures forall other :: other in kernel.vars && other != name ==> kernel.vars[other] == old(kernel).vars[other]
      ensures !failed <==> name in kernel.vars && name in kernel.writable
      ensures !failed ==> kernel.vars[name] == value
      ensures failed ==> kernel == old(kernel)
    {
      failed := true;
      if name in kernel.vars && name in kernel.writable {
        FormatRead(value as int);
        var buffer := Format(value as int);
        kernel := kernel.(vars := kernel.vars[name := Strtol(buffer).0 as Int32]);
        failed := false;
      }
    }

    /** setkernvar; whether its copies of the name stay inside what they are
        copied to. */
    method SetKernvar(name: string, value: Int32) returns (fits: bool)
      requires Valid()
      modifies this, kv
      ensures fits <==> NameFits(old(View()), name)
      ensures fits ==> Valid() && View() == SetVar(old(View()), name, value)
    {
      if |PREFIX| + |name| >= PATHLEN {
        return false;
      }
      var failed, oldvalue := KernvarRead(name);
      ghost var before := View();
      if !failed {
        var i := 0;
        while i < KVARS
          invariant 0 <= i <= KVARS && i <= used && Valid() && View() == before
          invariant forall j :: 0 <= j < i ==> kv[j].name != name
          invariant before == old(View()) && kernel == old(kernel)
        {
          if kv[i].name == name {
            break;
          }
          if kv[i].name == "" {
            if |name| >= KVARNAMELEN {
              return false;
            }
            kv[i] := Entry(name, oldvalue);
            used := used + 1;
            break;
          }
          i := i + 1;
        }
      }
      failed := KernvarWrite(name, value);
      fits := true;
    }

    /** restorekernvars. */
    method RestoreKernvars()
      requires Valid()
      modifies `kernel
      ensures Valid() && kernel == Restored(old(View()))
    {
      var i := 0;
      while i < KVARS
        invariant 0 <= i <= KVARS && Valid()
        invariant kernel == WrittenBack(old(kernel), kv[..used], if i <= used then i else used)
      {
        if kv[i].name != "" {
          var failed := KernvarWrite(kv[i].name, kv[i].value);
        }
        i := i + 1;
      }
    }
  }

  // --- after any calls -----------------------------------------------------------------

  datatype Call = Call(name: string, value: Int32)

  function SetAll(s: State, calls: seq<Call>): State
    decreases |calls|
  {
    if calls == [] then s
    else
      var n := |calls| - 1;
      SetVar(SetAll(s, calls[..n]), calls[n].name, calls[n].value)
  }

  /** The value the calls leave a variable with. */
  function Left(k: Kernel, calls: seq<Call>, name: string): Int32
    requires name in k.vars
    decreases |calls|
  {
    if calls == [] || name !in k.writable then k.vars[name]
    else
      var n := |calls| - 1;
      if calls[n].name == name then calls[n].value else Left(k, calls[..n], name)
  }

  lemma {:induction false} SetAllLeaves(k: Kernel, calls: seq<Call>)
    ensures var after := SetAll(State([], k), calls).kernel;
            && after.readable == k.readable && after.writable == k.writable && after.vars.Keys == k.vars.Keys
            && forall name :: name in k.vars ==> after.vars[name] == Left(k, calls, name)
    decreases |calls|
  {
    if calls != [] {
      SetAllLeaves(k, calls[..|calls| - 1]);
    }
  }

  /** The readable variables among those called for, in the order of their first calls. */
  function FirstCalls(k: Kernel, calls: seq<Call>): seq<string>
    decreases |calls|
  {
    if calls == [] then []
    else
      var n := |calls| - 1;
      var before, name := FirstCalls(k, calls[..n]), calls[n].name;
      if CanRead(k, name) && name != "" && name !in before then before + [name] else before
  }

  lemma {:induction false} FirstCallsAreCalled(k: Kernel, calls: seq<Call>, name: string)
    ensures name in FirstCalls(k, calls) <==>
            CanRead(k, name) && name != "" && exists i :: 0 <= i < |calls| && calls[i].name == name
    decreases |calls|
  {
    if calls != [] {
      var n := |calls| - 1;
      FirstCallsAreCalled(k, calls[..n], name);
      if i :| 0 <= i < |calls| && calls[i].name == name && i < n {
        assert calls[..n][i].name == name;
      }
    }
  }

  lemma {:induction false} NotCalledNotChanged(k: Kernel, calls: seq<Call>, name: string)
    requires name in k.vars && name !in FirstCalls(k, calls) && CanRead(k, name) && name != ""
    ensures Left(k, calls, name) == k.vars[name]
    decreases |calls|
  {
    if calls != [] {
      NotCalledNotChanged(k, calls[..|calls| - 1], name);
    }
  }

  /** The names that find room in the table. */
  function InTime(k: Kernel, calls: seq<Call>): seq<string> {
    var f := FirstCalls(k, calls);
    if |f| <= KVARS then f else f[..KVARS]
  }

  ghost predicate TableOk(k: Kernel, names: seq<string>, table: seq<Entry>) {
    && |table| == |names|
    && forall i :: 0 <= i < |names| ==> names[i] in k.vars && table[i] == Entry(names[i], k.vars[names[i]])
  }

  /** The table holds the original values of the first KVARS readable variables. */
  lemma {:induction false} TableIsOriginal(k: Kernel, calls: seq<Call>)
    ensures TableOk(k, InTime(k, calls), SetAll(State([], k), calls).table)
    decreases |calls|
  {
    if calls != [] {
      var n := |calls| - 1;
      var name := calls[n].name;
      var before := SetAll(State([], k), calls[..n]);
      TableIsOriginal(k, calls[..n]);
      SetAllLeaves(k, calls[..n]);
      ListedIsInTime(k, InTime(k, calls[..n]), before.table, name);
      if CanRead(k, name) && name != "" && name !in FirstCalls(k, calls[..n]) {
        NotCalledNotChanged(k, calls[..n], name);
      }
    }
  }

  lemma ListedIsInTime(k: Kernel, names: seq<string>, table: seq<Entry>, name: string)
    requires TableOk(k, names, table)
    ensures Listed(table, name) <==> name in names
  {
    if name in names {
      var i :| 0 <= i < |names| && names[i] == name;
      assert table[i].name == name;
    }
  }

  lemma {:induction false} WriteBackRestores(k: Kernel, now: Kernel, names: seq<string>, table: seq<Entry>, n: nat, name: string)
    requires TableOk(k, names, table) && n <= |table| && name in k.vars
    requires now.writable == k.writable && now.vars.Keys == k.vars.Keys
    requires name !in k.writable ==> now.vars[name] == k.vars[name]
    ensures var r := WrittenBack(now, table, n);
            && r.readable == now.readable && r.writable == now.writable && r.vars.Keys == k.vars.Keys
            && r.vars[name] == if name in names[..n] then k.vars[name] else now.vars[name]
    decreases n
  {
    if n > 0 {
      WriteBackRestores(k, now, names, table, n - 1, name);
      assert names[..n] == names[..n - 1] + [names[n - 1]];
    }
  }

  /** What restorekernvars leaves a variable with: its original value exactly if
      it was backed up in time, or nothing had changed it in the end anyway. */
  lemma RestoreUndoes(k: Kernel, calls: seq<Call>, name: string)
    requires name in k.vars
    ensures var end := Restored(SetAll(State([], k), calls));
            && end.vars.Keys == k.vars.Keys
            && (end.vars[name] == k.vars[name] <==>
                name in InTime(k, calls) || Left(k, calls, name) == k.vars[name])
  {
    var s := SetAll(State([], k), calls);
    var names := InTime(k, calls);
    SetAllLeaves(k, calls);
    TableIsOriginal(k, calls);
    WriteBackRestores(k, s.kernel, names, s.table, |s.table|, name);
    assert names[..|s.table|] == names;
  }

  lemma LeftIfNotCalled(k: Kernel, calls: seq<Call>, name: string)
    requires name in k.vars && forall i :: 0 <= i < |calls| ==> calls[i].name != name
    ensures Left(k, calls, name) == k.vars[name]
    decreases |calls|
  {
    if calls != [] {
      LeftIfNotCalled(k, calls[..|calls| - 1], name);
    }
  }

  /** So if what can be written can be read too, and at most KVARS variables are
      called for, everything is as it was before the first call. */
  lemma EverythingRestored(k: Kernel, calls: seq<Call>)
    requires |FirstCalls(k, calls)| <= KVARS
    requires forall i :: 0 <= i < |calls| && calls[i].name in k.vars && calls[i].name in k.writable ==>
               calls[i].name in k.readable && calls[i].name != ""
    ensures Restored(SetAll(State([], k), calls)) == k
  {
    var end := Restored(SetAll(State([], k), calls));
    var s := SetAll(State([], k), calls);
    SetAllLeaves(k, calls);
    TableIsOriginal(k, calls);
    forall name | name in k.vars
      ensures name in end.vars && end.vars[name] == k.vars[name]
    {
      RestoreUndoes(k, calls, name);
      FirstCallsAreCalled(k, calls, name);
      if name !in FirstCalls(k, calls) && name in k.writable {
        LeftIfNotCalled(k, calls, name);
      }
    }
    RestoredKeeps(s.kernel, s.table, |s.table|);
    assert end.vars == k.vars;
  }

  lemma {:induction false} RestoredKeeps(k: Kernel, table: seq<Entry>, n: nat)
    requires n <= |table|
    ensures var r := WrittenBack(k, table, n);
            r.readable == k.readable && r.writable == k.writable && r.vars.Keys == k.vars.Keys
  {
    if n > 0 {
      RestoredKeeps(k, table, n - 1);
    }
  }
}
