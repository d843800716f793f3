/**
 Scoped builtin guards (`crates/scallop/src/builtins.rs`): creating one enables or disables builtins and
 remembers which it changed, dropping it changes those back.
 */
module ScopedBuiltins {
  import opened Wrappers

  type Flags = map<string, bv32>

  /** `Attr::ENABLED`; the other bits are never touched. */
  const ENABLED: bv32 := 1

  predicate IsOn(f: bv32) {
    f & ENABLED == 1
  }

  function Flip(f: bv32, enable: bool): bv32 {
    if enable then f | ENABLED else f & !ENABLED
  }

  lemma FlipLaws(f: bv32, enable: bool)
    ensures IsOn(Flip(f, enable)) == enable
    ensures IsOn(f) != enable ==> Flip(Flip(f, enable), !enable) == f
  {
  }

  // ---------------------------------------------------------------- what toggling does

  /** The names in front of the first unknown one. */
  function Known(flags: Flags, names: seq<string>): (r: seq<string>)
    ensures r <= names && forall n :: n in r ==> n in flags
  {
    if names == [] || names[0] !in flags then [] else [names[0]] + Known(flags, names[1..])
  }

  /** The names whose status differs, each where it first occurs. */
  function Changed(flags: Flags, names: seq<string>, enable: bool): seq<string>
    requires forall n :: n in names ==> n in flags
  {
    if names == [] then [] else
      var n := |names| - 1;
      Changed(flags, names[..n], enable) + Change(flags, names[..n], names[n], enable)
  }

  function Change(flags: Flags, before: seq<string>, name: string, enable: bool): seq<string>
    requires name in flags
  {
    if name in before || IsOn(flags[name]) == enable then [] else [name]
  }

  ghost function Toggled(flags: Flags, names: seq<string>, enable: bool): (r: Flags)
    requires forall n :: n in names ==> n in flags
    ensures r.Keys == flags.Keys
  {
    map n | n in flags :: if n in names && IsOn(flags[n]) != enable then Flip(flags[n], enable) else flags[n]
  }

  lemma {:induction false} KnownIsKnown(flags: Flags, names: seq<string>)
    ensures Known(flags, names) == names <==> forall n :: n in names ==> n in flags
  {
    if names != [] {
      KnownIsKnown(flags, names[1..]);
      assert forall n :: n in names <==> n == names[0] || n in names[1..];
    }
  }

  /** One more name: its flag flips unless it did before or has the status already. */
  lemma ToggledOneMore(flags: Flags, names: seq<string>, i: nat, enable: bool)
    requires i < |names| && forall n :: n in names ==> n in flags
    ensures var (name, before) := (names[i], Toggled(flags, names[..i], enable));
            && name in before
            && (IsOn(before[name]) != enable <==> Change(flags, names[..i], name, enable) != [])
            && Toggled(flags, names[..i + 1], enable) ==
               (if IsOn(before[name]) == enable then before else before[name := Flip(before[name], enable)])
    ensures Changed(flags, names[..i + 1], enable) == Changed(flags, names[..i], enable) + Change(flags, names[..i], names[i], enable)
  {
    var name := names[i];
    FlipLaws(flags[name], enable);
    TakeOneMore(names, i);
    InitOne(names[..i], name);
    assert forall n :: n in names[..i + 1] <==> n in names[..i] || n == name;
  }

  /** One more name: it is unknown and ends the known ones, or it joins them. */
  lemma KnownOneMore(flags: Flags, names: seq<string>, known: seq<string>, i: nat)
    requires i < |names| && i <= |known| && Known(flags, names[i..]) == known[i..]
    ensures names[i] !in flags ==> known[..i] == known && exists n :: n in names && n !in flags
    ensures names[i] in flags ==>
              i < |known| && known[i] == names[i] && known[i..][1..] == known[i + 1..] && Known(flags, names[i + 1..]) == known[i + 1..]
  {
    assert names[i] in names;
    assert names[i..][0] == names[i] && names[i..][1..] == names[i + 1..];
    if names[i] in flags {
      assert known[i] == known[i..][0] && known[i..][1..] == known[i + 1..];
    }
  }

  class Shell {
    var flags: Flags

    constructor (flags: Flags)
      ensures this.flags == flags
    {
      this.flags := flags;
    }

    /** `toggle_status`: an unknown name ends the loop, what was changed before it stays changed. */
    method ToggleStatus(names: seq<string>, enable: bool) returns (r: Result<seq<string>, string>)
      modifies this
      ensures flags == Toggled(old(flags), Known(old(flags), names), enable)
      ensures r.Ok? <==> forall n :: n in names ==> n in old(flags)
      ensures r.Ok? ==> r.value == Changed(old(flags), names, enable)
    {
      var toggled := [];
      ghost var known := Known(flags, names);
      KnownIsKnown(flags, names);
      for i := 0 to |names|
        invariant i <= |known| && Known(old(flags), names[i..]) == known[i..]
        invariant flags == Toggled(old(flags), known[..i], enable)
        invariant toggled == Changed(old(flags), known[..i], enable)
      {
        var name := names[i];
        KnownOneMore(old(flags), names, known, i);
        if name !in flags { return Err("unknown builtin: " + name); }
        ToggledOneMore(old(flags), known, i, enable);
        if IsOn(flags[name]) != enable {
          flags := flags[name := Flip(flags[name], enable)];
          toggled := toggled + [name];
        }
      }
      assert known[..|names|] == known == names;
      r := Ok(toggled);
    }
  }

  // ---------------------------------------------------------------- guards

  /** The changed names are those whose status differed, none twice. */
  lemma {:induction false} ChangedLaws(flags: Flags, names: seq<string>, enable: bool)
    requires forall n :: n in names ==> n in flags
    ensures forall n :: n in Changed(flags, names, enable) <==> n in names && IsOn(flags[n]) != enable
    ensures forall i, j :: 0 <= i < j < |Changed(flags, names, enable)| ==> Changed(flags, names, enable)[i] != Changed(flags, names, enable)[j]
  {
    if names != [] {
      var n := |names| - 1;
      ChangedLaws(flags, names[..n], enable);
      assert forall m :: m in names <==> m in names[..n] || m == names[n];
    }
  }

  /** Toggling the changed names back restores every flag of every builtin. */
  lemma TogglingBack(flags: Flags, names: seq<string>, enable: bool)
    requires forall n :: n in names ==> n in flags
    ensures var changed := Changed(flags, names, enable);
            && Known(Toggled(flags, names, enable), changed) == changed
            && (forall n :: n in changed ==> n in flags)
            && Toggled(Toggled(flags, names, enable), changed, !enable) == flags
  {
    ChangedLaws(flags, names, enable);
    var toggled, changed := Toggled(flags, names, enable), Changed(flags, names, enable);
    KnownIsKnown(toggled, changed);
    forall n | n in flags ensures Toggled(toggled, changed, !enable)[n] == flags[n] {
      FlipLaws(flags[n], enable);
    }
    assert Toggled(toggled, changed, !enable).Keys == flags.Keys;
  }

  /** A failed creation drops the list of what it changed: nothing is left over exactly when it changed nothing. */
  lemma FailedCreationLeaks(flags: Flags, names: seq<string>, enable: bool)
    requires exists n :: n in names && n !in flags
    ensures (forall n :: n in Known(flags, names) ==> n in flags) &&
            (Toggled(flags, Known(flags, names), enable) == flags <==>
             forall n :: n in Known(flags, names) ==> IsOn(flags[n]) == enable)
  {
    KnownIsKnown(flags, names);
    var known := Known(flags, names);
    forall n | n in known && IsOn(flags[n]) != enable ensures Toggled(flags, known, enable)[n] != flags[n] {
      FlipLaws(flags[n], enable);
    }
  }

  /** Guards that live for some code, which may hold guards of its own. */
  datatype Guard = Guard(names: seq<string>, enable: bool, body: seq<Guard>)

  predicate AllKnown(flags: set<string>, guards: seq<Guard>) {
    forall g :: g in guards ==> KnownIn(flags, g)
  }

  predicate KnownIn(flags: set<string>, g: Guard) {
    (forall n :: n in g.names ==> n in flags) && AllKnown(flags, g.body)
  }

  /**
   Code with nested guards, one creation after the other; the first creation that fails ends it, as `?`
   does.  If all succeed, every builtin ends as it started.  Dropping never fails.
   */
  method Nested(shell: Shell, guards: seq<Guard>) returns (ok: bool)
    modifies shell
    ensures shell.flags.Keys == old(shell.flags).Keys
    ensures ok <==> AllKnown(old(shell.flags).Keys, guards)
    ensures ok ==> shell.flags == old(shell.flags)
    decreases guards, 0
  {
    for i := 0 to |guards|
      invariant shell.flags == old(shell.flags)
      invariant forall j :: 0 <= j < i ==> KnownIn(old(shell.flags).Keys, guards[j])
    {
      ok := Scoped(shell, guards[i]);
      if !ok { return; }
    }
    ok := true;
  }

  /** One guard: creation, its code, and the drop, which also runs when the code fails. */
  method Scoped(shell: Shell, g: Guard) returns (ok: bool)
    modifies shell
    ensures shell.flags.Keys == old(shell.flags).Keys
    ensures ok <==> KnownIn(old(shell.flags).Keys, g)
    ensures ok ==> shell.flags == old(shell.flags)
    decreases g, 1
  {
    KnownIsKnown(shell.flags, g.names);
    var r := shell.ToggleStatus(g.names, g.enable);
    if r.Err? { return false; }
    TogglingBack(old(shell.flags), g.names, g.enable);
    ok := Nested(shell, g.body);
    KnownIsKnown(shell.flags, r.value);
    var dropped := shell.ToggleStatus(r.value, !g.enable);
    assert dropped.Ok?;
  }
}
