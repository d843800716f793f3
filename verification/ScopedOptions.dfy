/**
 The scoped option guard (`crates/scallop/src/builtins.rs`): it turns shell options on and off, remembers
 which it changed in which direction, and undoes that when dropped, and when that restores the options.

 The builtins are bash's own.  `shopt` acts on every name it is given; `set -o` and `set +o` take one
 name, and further ones become positional parameters (section 4.3.1 of the Bash Reference Manual).
 Options are taken as independent of each other.
 */
module ScopedOptions {
  import opened Wrappers

  /** The options of `set` and of `shopt`, and those the shell refuses to turn on and to turn off. */
  datatype Options = Options(setNames: set<string>, shoptNames: set<string>, stuckOff: set<string>, stuckOn: set<string>) {
    /** The shell does not refuse. */
    predicate Changes(on: set<string>, o: string, enable: bool) {
      if enable then o in on || o !in stuckOff else o !in on || o !in stuckOn
    }

    /** A name the guard gets past when these options are on: known, and changed if it must be. */
    predicate Passes(on: set<string>, o: string, enable: bool) {
      o in setNames + shoptNames && Changes(on, o, enable)
    }
  }

  class Shell {
    const opts: Options
    var on: set<string>

    constructor (opts: Options, on: set<string>)
      ensures this.opts == opts && this.on == on
    {
      this.opts, this.on := opts, on;
    }

    /** `shopt -s` and `shopt -u` */
    method Shopt(names: seq<string>, enable: bool) returns (ok: bool)
      modifies this
      ensures on == if enable then old(on) + (AsSet(names) - opts.stuckOff) else old(on) - (AsSet(names) - opts.stuckOn)
      ensures ok <==> if enable then AsSet(names) <= on else AsSet(names) * on == {}
    {
      on := if enable then on + (AsSet(names) - opts.stuckOff) else on - (AsSet(names) - opts.stuckOn);
      ok := if enable then AsSet(names) <= on else AsSet(names) * on == {};
    }

    /** `set -o` and `set +o` */
    method Set(names: seq<string>, enable: bool) returns (ok: bool)
      requires names != []
      modifies this
      ensures on == if enable then old(on) + ({names[0]} - opts.stuckOff) else old(on) - ({names[0]} - opts.stuckOn)
      ensures ok <==> (names[0] in on) == enable
    {
      on := if enable then on + ({names[0]} - opts.stuckOff) else on - ({names[0]} - opts.stuckOn);
      ok := (names[0] in on) == enable;
    }
  }

  function AsSet(s: seq<string>): set<string> {
    set o | o in s
  }

  /** The options in front of the first that is unknown or refused. */
  function Passed(opts: Options, on: set<string>, options: seq<string>, enable: bool): (r: seq<string>)
    ensures r == options <==> forall o :: o in options ==> opts.Passes(on, o, enable)
    ensures r <= options && forall o :: o in r ==> o in options && opts.Passes(on, o, enable)
  {
    if options == [] || !opts.Passes(on, options[0], enable) then [] else [options[0]] + Passed(opts, on, options[1..], enable)
  }

  /** Those of a list whose status differs from the one wanted, of `set` or of `shopt`. */
  function Changing(opts: Options, on: set<string>, options: seq<string>, enable: bool, ofSet: bool): seq<string> {
    if options == [] then [] else
      var n := |options| - 1;
      Changing(opts, on, options[..n], enable, ofSet) + ChangingOne(opts, on, options[n], enable, ofSet)
  }

  function ChangingOne(opts: Options, on: set<string>, o: string, enable: bool, ofSet: bool): seq<string> {
    if (o in opts.setNames) == ofSet && (o in on) != enable then [o] else []
  }

  /** The options that are on, and those a guard remembers as turned on and off. */
  datatype State = State(on: set<string>, shoptEnabled: seq<string>, shoptDisabled: seq<string>, setEnabled: seq<string>, setDisabled: seq<string>) {
    /** Options are compared with what was on when the call began. */
    function Change(opts: Options, options: seq<string>, enable: bool): State {
      var ofSet, ofShopt := Changing(opts, on, options, enable, true), Changing(opts, on, options, enable, false);
      if enable then State(on + AsSet(options), shoptEnabled + ofShopt, shoptDisabled, setEnabled + ofSet, setDisabled)
      else State(on - AsSet(options), shoptEnabled, shoptDisabled + ofShopt, setEnabled, setDisabled + ofSet)
    }

    predicate Enabled(o: string) { o in shoptEnabled || o in setEnabled }

    predicate Disabled(o: string) { o in shoptDisabled || o in setDisabled }

    /** A successful drop undoes all options of `shopt`, but only the first of `set` in each direction. */
    function Dropped(): set<string> {
      (on - AsSet(shoptEnabled) + AsSet(shoptDisabled)) - First(setEnabled) + First(setDisabled)
    }

    /** Every option the drop wants to turn off or on can be. */
    predicate CanDrop(opts: Options) {
      && (forall o :: o in AsSet(shoptEnabled) + First(setEnabled) ==> o !in opts.stuckOn)
      && (forall o :: o in AsSet(shoptDisabled) + First(setDisabled) ==> o !in opts.stuckOff)
    }

    /** What is on after each of the four calls of a drop; those for empty lists change nothing. */
    function ShoptOff(opts: Options): set<string> { on - (AsSet(shoptEnabled) - opts.stuckOn) }

    function ShoptOn(opts: Options): set<string> { ShoptOff(opts) + (AsSet(shoptDisabled) - opts.stuckOff) }

    function SetOff(opts: Options): set<string> { ShoptOn(opts) - (First(setEnabled) - opts.stuckOn) }

    function SetOn(opts: Options): set<string> { SetOff(opts) + (First(setDisabled) - opts.stuckOff) }

    /** What is on after the drop, also after one that panics: a refused change ends it. */
    function AfterDrop(opts: Options): set<string> {
      if AsSet(shoptEnabled) * ShoptOff(opts) != {} then ShoptOff(opts)
      else if !(AsSet(shoptDisabled) <= ShoptOn(opts)) then ShoptOn(opts)
      else if First(setEnabled) * SetOff(opts) != {} then SetOff(opts)
      else SetOn(opts)
    }

    /** The guard's lists hold options of their builtin, and refused changes have not happened since. */
    ghost predicate Sound(opts: Options) {
      && (forall o :: o in setEnabled + setDisabled ==> o in opts.setNames)
      && (forall o :: o in shoptEnabled + shoptDisabled ==> o !in opts.setNames)
      && (forall o :: Enabled(o) && o in opts.stuckOn ==> o in on)
      && (forall o :: Disabled(o) && o in opts.stuckOff ==> o !in on)
    }
  }

  function First(s: seq<string>): set<string> {
    if s == [] then {} else {s[0]}
  }

  // ---------------------------------------------------------------- one call

  lemma {:induction false} ChangingMeans(opts: Options, on: set<string>, options: seq<string>, enable: bool, ofSet: bool, o: string)
    ensures o in Changing(opts, on, options, enable, ofSet) <==>
            o in options && (o in opts.setNames) == ofSet && (o in on) != enable
  {
    if options != [] {
      var n := |options| - 1;
      ChangingMeans(opts, on, options[..n], enable, ofSet, o);
      assert o in options <==> o in options[..n] || o == options[n];
    }
  }

  /** What a call does to one option. */
  lemma ChangeMeans(opts: Options, s: State, options: seq<string>, enable: bool, o: string)
    ensures var t := s.Change(opts, options, enable);
            && (o in t.on <==> if o in options then enable else o in s.on)
            && (t.Enabled(o) <==> s.Enabled(o) || (enable && o in options && o !in s.on))
            && (t.Disabled(o) <==> s.Disabled(o) || (!enable && o in options && o in s.on))
            && (o in t.setEnabled + t.setDisabled ==> o in s.setEnabled + s.setDisabled || o in opts.setNames)
            && (o in t.shoptEnabled + t.shoptDisabled ==> o in s.shoptEnabled + s.shoptDisabled || o !in opts.setNames)
  {
    ChangingMeans(opts, s.on, options, enable, true, o);
    ChangingMeans(opts, s.on, options, enable, false, o);
  }

  lemma ChangeIsSound(opts: Options, s: State, options: seq<string>, enable: bool)
    requires s.Sound(opts)
    ensures s.Change(opts, Passed(opts, s.on, options, enable), enable).Sound(opts)
  {
    var passed := Passed(opts, s.on, options, enable);
    var t := s.Change(opts, passed, enable);
    forall o
      ensures o in t.setEnabled + t.setDisabled ==> o in opts.setNames
      ensures o in t.shoptEnabled + t.shoptDisabled ==> o !in opts.setNames
      ensures t.Enabled(o) && o in opts.stuckOn ==> o in t.on
      ensures t.Disabled(o) && o in opts.stuckOff ==> o !in t.on
    {
      ChangeMeans(opts, s, passed, enable, o);
    }
  }

  /** The state after one option was changed. */
  function Turned(opts: Options, s: State, o: string, enable: bool): State {
    match (enable, o in opts.setNames)
    case (true, true) => s.(on := s.on + {o}, setEnabled := s.setEnabled + [o])
    case (true, false) => s.(on := s.on + {o}, shoptEnabled := s.shoptEnabled + [o])
    case (false, true) => s.(on := s.on - {o}, setDisabled := s.setDisabled + [o])
    case (false, false) => s.(on := s.on - {o}, shoptDisabled := s.shoptDisabled + [o])
  }

  /** One more option of a call. */
  lemma OneMore(opts: Options, s: State, options: seq<string>, enable: bool, o: string)
    ensures var t := s.Change(opts, options, enable);
            s.Change(opts, options + [o], enable) == if (o in s.on) == enable then t else Turned(opts, t, o, enable)
  {
    ChangeOneMore(opts, s, options, enable, o);
    var ofSet, ofShopt := ChangingOne(opts, s.on, o, enable, true), ChangingOne(opts, s.on, o, enable, false);
    if (o in s.on) == enable {
      assert ofSet == [] && ofShopt == [];
    } else if o in opts.setNames {
      assert ofSet == [o] && ofShopt == [];
    } else {
      assert ofSet == [] && ofShopt == [o];
    }
  }

  lemma ChangeOneMore(opts: Options, s: State, options: seq<string>, enable: bool, o: string)
    ensures s.Change(opts, options + [o], enable) ==
            Longer(s.Change(opts, options, enable), o, enable, (o in s.on) != enable,
                   ChangingOne(opts, s.on, o, enable, true), ChangingOne(opts, s.on, o, enable, false))
  {
    AsSetOneMore(options, o);
    OnOneMore(s.on, AsSet(options), o);
    ChangingOneMore(opts, s.on, options, enable, true, o);
    ChangingOneMore(opts, s.on, options, enable, false, o);
    var a, b := Changing(opts, s.on, options, enable, true), Changing(opts, s.on, options, enable, false);
    var x, y := ChangingOne(opts, s.on, o, enable, true), ChangingOne(opts, s.on, o, enable, false);
    if enable {
      Assoc(s.setEnabled, a, x);
      Assoc(s.shoptEnabled, b, y);
    } else {
      Assoc(s.setDisabled, a, x);
      Assoc(s.shoptDisabled, b, y);
    }
  }

  /** A state with one more option in its lists. */
  function Longer(t: State, o: string, enable: bool, changed: bool, ofSet: seq<string>, ofShopt: seq<string>): State {
    if enable then State(if changed then t.on + {o} else t.on, t.shoptEnabled + ofShopt, t.shoptDisabled, t.setEnabled + ofSet, t.setDisabled)
    else State(if changed then t.on - {o} else t.on, t.shoptEnabled, t.shoptDisabled + ofShopt, t.setEnabled, t.setDisabled + ofSet)
  }

  lemma OnOneMore(on: set<string>, some: set<string>, o: string)
    ensures on + (some + {o}) == if o in on then on + some else on + some + {o}
    ensures on - (some + {o}) == if o !in on then on - some else on - some - {o}
  {
  }

  lemma AsSetOneMore(options: seq<string>, o: string)
    ensures AsSet(options + [o]) == AsSet(options) + {o}
  {
  }

  lemma ChangingOneMore(opts: Options, on: set<string>, options: seq<string>, enable: bool, ofSet: bool, o: string)
    ensures Changing(opts, on, options + [o], enable, ofSet) ==
            Changing(opts, on, options, enable, ofSet) + ChangingOne(opts, on, o, enable, ofSet)
  {
    InitOne(options, o);
  }

  lemma OneName(o: string, on: set<string>)
    ensures AsSet([o]) == {o} && (AsSet([o]) <= on <==> o in on) && (AsSet([o]) * on == {} <==> o !in on)
  {
    assert o in [o];
    assert o in on ==> o in AsSet([o]) * on;
  }

  lemma Rest(s: seq<string>, i: nat)
    requires i < |s|
    ensures s[i..][0] == s[i] && s[i..][1..] == s[i + 1..] && s[..i + 1] == s[..i] + [s[i]]
  {
  }

  /** One more option of a list: it ends the passed ones, or it joins them. */
  lemma PassedOneMore(opts: Options, on: set<string>, options: seq<string>, enable: bool, passed: seq<string>, i: nat)
    requires i < |options| && i <= |passed| && passed[i..] == Passed(opts, on, options[i..], enable)
    ensures !opts.Passes(on, options[i], enable) ==> passed[..i] == passed
    ensures opts.Passes(on, options[i], enable) ==>
              i < |passed| && passed[i + 1..] == Passed(opts, on, options[i + 1..], enable) && passed[..i + 1] == passed[..i] + [options[i]]
  {
    Rest(options, i);
    if opts.Passes(on, options[i], enable) { Rest(passed, i); }
  }

  class ScopedOptions {
    const shell: Shell
    var shoptEnabled: seq<string>
    var shoptDisabled: seq<string>
    var setEnabled: seq<string>
    var setDisabled: seq<string>

    ghost function Abstract(): State
      reads this, shell
    {
      State(shell.on, shoptEnabled, shoptDisabled, setEnabled, setDisabled)
    }

    constructor (shell: Shell)
      ensures this.shell == shell && Abstract() == State(shell.on, [], [], [], [])
    {
      this.shell := shell;
      shoptEnabled, shoptDisabled, setEnabled, setDisabled := [], [], [], [];
    }

    /** Change one option and remember it, unless the shell refuses. */
    method Turn(o: string, enable: bool) returns (ok: bool)
      modifies this, shell
      ensures ok <==> shell.opts.Changes(old(shell.on), o, enable)
      ensures Abstract() == if ok then Turned(shell.opts, old(Abstract()), o, enable) else old(Abstract())
    {
      OneName(o, shell.on + {o});
      OneName(o, shell.on - {o});
      OneName(o, shell.on);
      if o in shell.opts.setNames {
        ok := shell.Set([o], enable);
        if ok && enable { setEnabled := setEnabled + [o]; }
        if ok && !enable { setDisabled := setDisabled + [o]; }
      } else {
        ok := shell.Shopt([o], enable);
        if ok && enable { shoptEnabled := shoptEnabled + [o]; }
        if ok && !enable { shoptDisabled := shoptDisabled + [o]; }
      }
    }

    /** `enable`: an unknown or refused option ends the loop; what was turned on before it is remembered. */
    method Enable(options: seq<string>) returns (r: Result<(), string>)
      modifies this, shell
      ensures Abstract() == old(Abstract()).Change(shell.opts, Passed(shell.opts, old(shell.on), options, true), true)
      ensures r.Ok? <==> forall o :: o in options ==> shell.opts.Passes(old(shell.on), o, true)
    {
      var enabled := shell.on;
      ghost var passed := Passed(shell.opts, enabled, options, true);
      NothingChanged(shell.opts, Abstract(), passed, true);
      for i := 0 to |options|
        invariant i <= |passed| && passed[i..] == Passed(shell.opts, enabled, options[i..], true)
        invariant Abstract() == old(Abstract()).Change(shell.opts, passed[..i], true)
      {
        PassedOneMore(shell.opts, enabled, options, true, passed, i);
        OneMore(shell.opts, old(Abstract()), passed[..i], true, options[i]);
        assert options[i] in options;
        r := TryEnable(options[i], enabled);
        if r.Err? { return; }
      }
      assert passed[..|options|] == passed == options;
      r := Ok(());
    }

    /** One turn of the loop in `enable`. */
    method TryEnable(o: string, enabled: set<string>) returns (r: Result<(), string>)
      requires enabled <= shell.on
      modifies this, shell
      ensures r.Ok? <==> o in shell.opts.setNames + shell.opts.shoptNames && (o in enabled || shell.opts.Changes(old(shell.on), o, true))
      ensures Abstract() == if r.Ok? && o !in enabled then Turned(shell.opts, old(Abstract()), o, true) else old(Abstract())
    {
      if o !in shell.opts.setNames && o !in shell.opts.shoptNames { return Err("unknown option: " + o); }
      if o !in enabled {
        var ok := Turn(o, true);
        if !ok { return Err("failed to enable: " + o); }
      }
      r := Ok(());
    }

    /** `disable` */
    method Disable(options: seq<string>) returns (r: Result<(), string>)
      modifies this, shell
      ensures Abstract() == old(Abstract()).Change(shell.opts, Passed(shell.opts, old(shell.on), options, false), false)
      ensures r.Ok? <==> forall o :: o in options ==> shell.opts.Passes(old(shell.on), o, false)
    {
      var enabled := shell.on;
      ghost var passed := Passed(shell.opts, enabled, options, false);
      NothingChanged(shell.opts, Abstract(), passed, false);
      for i := 0 to |options|
        invariant i <= |passed| && passed[i..] == Passed(shell.opts, enabled, options[i..], false)
        invariant Abstract() == old(Abstract()).Change(shell.opts, passed[..i], false)
      {
        PassedOneMore(shell.opts, enabled, options, false, passed, i);
        OneMore(shell.opts, old(Abstract()), passed[..i], false, options[i]);
        assert options[i] in options;
        r := TryDisable(options[i], enabled);
        if r.Err? { return; }
      }
      assert passed[..|options|] == passed == options;
      r := Ok(());
    }

    /** One turn of the loop in `disable`. */
    method TryDisable(o: string, enabled: set<string>) returns (r: Result<(), string>)
      requires shell.on <= enabled
      modifies this, shell
      ensures r.Ok? <==> o in shell.opts.setNames + shell.opts.shoptNames && (o !in enabled || shell.opts.Changes(old(shell.on), o, false))
      ensures Abstract() == if r.Ok? && o in enabled then Turned(shell.opts, old(Abstract()), o, false) else old(Abstract())
    {
      if o !in shell.opts.setNames && o !in shell.opts.shoptNames { return Err("unknown option: " + o); }
      if o in enabled {
        var ok := Turn(o, false);
        if !ok { return Err("failed to disable: " + o); }
      }
      r := Ok(());
    }

    /**
     `drop`: the lists of `shopt`, then those of `set`, enabled options first; a refused change panics.
     */
    method Drop() returns (ok: bool)
      requires Abstract().Sound(shell.opts)
      modifies shell
      ensures ok <==> old(Abstract()).CanDrop(shell.opts)
      ensures shell.on == old(Abstract()).AfterDrop(shell.opts)
      ensures ok ==> shell.on == old(Abstract()).Dropped()
    {
      ghost var s, opts := Abstract(), shell.opts;
      AfterDropMeans(opts, s);
      SkippedCalls(opts, s);
      ok := true;
      if shoptEnabled != [] { ok := shell.Shopt(shoptEnabled, false); }
      assert shell.on == s.ShoptOff(opts) && (ok <==> AsSet(shoptEnabled) * shell.on == {});
      if !ok { return; }
      if shoptDisabled != [] { ok := shell.Shopt(shoptDisabled, true); }
      assert shell.on == s.ShoptOn(opts) && (ok <==> AsSet(shoptDisabled) <= shell.on);
      if !ok { return; }
      if setEnabled != [] { ok := shell.Set(setEnabled, false); }
      assert shell.on == s.SetOff(opts) && (ok <==> First(setEnabled) * shell.on == {});
      if !ok { return; }
      if setDisabled != [] { ok := shell.Set(setDisabled, true); }
      assert shell.on == s.SetOn(opts) && (ok <==> First(setDisabled) <= shell.on);
    }
  }

  lemma NothingChanged(opts: Options, s: State, passed: seq<string>, enable: bool)
    ensures s.Change(opts, passed[..0], enable) == s
  {
  }

  // ---------------------------------------------------------------- histories of one guard

  datatype Act = Act(options: seq<string>, enable: bool)

  function Apply(opts: Options, s: State, act: Act): State {
    s.Change(opts, Passed(opts, s.on, act.options, act.enable), act.enable)
  }

  /** A guard's history, from the options that were on when it was created. */
  function Play(opts: Options, before: set<string>, acts: seq<Act>): State {
    if acts == [] then State(before, [], [], [], []) else
      var n := |acts| - 1;
      Apply(opts, Play(opts, before, acts[..n]), acts[n])
  }

  lemma {:induction false} PlayIsSound(opts: Options, before: set<string>, acts: seq<Act>)
    ensures Play(opts, before, acts).Sound(opts)
  {
    if acts != [] {
      var n := |acts| - 1;
      PlayIsSound(opts, before, acts[..n]);
      ChangeIsSound(opts, Play(opts, before, acts[..n]), acts[n].options, acts[n].enable);
    }
  }

  /** A guard is created, used, also past unknown and refused options, and dropped. */
  method Session(shell: Shell, acts: seq<Act>) returns (ok: bool)
    modifies shell
    ensures var s := Play(shell.opts, old(shell.on), acts);
            (ok <==> s.CanDrop(shell.opts)) && shell.on == s.AfterDrop(shell.opts) && (ok ==> shell.on == s.Dropped())
    ensures shell.on == old(shell.on) <==> Restores(shell.opts, old(shell.on), acts)
  {
    var guard := new ScopedOptions(shell);
    for i := 0 to |acts|
      invariant guard.shell == shell && fresh(guard)
      invariant guard.Abstract() == Play(shell.opts, old(shell.on), acts[..i])
    {
      assert acts[..i + 1][..i] == acts[..i];
      if acts[i].enable {
        var _ := guard.Enable(acts[i].options);
      } else {
        var _ := guard.Disable(acts[i].options);
      }
    }
    assert acts[..|acts|] == acts;
    PlayIsSound(shell.opts, old(shell.on), acts);
    DropRestores(shell.opts, old(shell.on), acts);
    ok := guard.Drop();
  }

  /** The calls of a history as far as they got. */
  function Done(opts: Options, before: set<string>, acts: seq<Act>): seq<Act> {
    if acts == [] then [] else
      var n := |acts| - 1;
      Done(opts, before, acts[..n]) + [LastDone(opts, before, acts)]
  }

  function LastDone(opts: Options, before: set<string>, acts: seq<Act>): Act
    requires acts != []
  {
    var last := acts[|acts| - 1];
    Act(Passed(opts, Play(opts, before, acts[..|acts| - 1]).on, last.options, last.enable), last.enable)
  }

  predicate Hits(done: seq<Act>, i: nat, enable: bool, o: string) {
    i < |done| && done[i].enable == enable && o in done[i].options
  }

  ghost predicate EverEnabled(done: seq<Act>, o: string) {
    exists i :: Hits(done, i, true, o)
  }

  /** Enabled by one call and disabled by a later one. */
  ghost predicate EnabledThenDisabled(done: seq<Act>, o: string) {
    exists i, j :: Pair(done, i, j, o)
  }

  predicate Pair(done: seq<Act>, i: nat, j: nat, o: string) {
    i < j && Hits(done, i, true, o) && Hits(done, j, false, o)
  }

  lemma EverOneMore(done: seq<Act>, act: Act, o: string)
    ensures EverEnabled(done + [act], o) <==> EverEnabled(done, o) || (act.enable && o in act.options)
  {
    var all := done + [act];
    if i: nat :| Hits(all, i, true, o) { assert i < |done| ==> Hits(done, i, true, o); }
    if i: nat :| Hits(done, i, true, o) { assert Hits(all, i, true, o); }
    if act.enable && o in act.options { assert Hits(all, |done|, true, o); }
  }

  lemma BothOneMore(done: seq<Act>, act: Act, o: string)
    ensures EnabledThenDisabled(done + [act], o) <==>
            EnabledThenDisabled(done, o) || (EverEnabled(done, o) && !act.enable && o in act.options)
  {
    var all := done + [act];
    if i: nat, j: nat :| Pair(all, i, j, o) {
      assert Hits(done, i, true, o);
      assert j < |done| ==> Pair(done, i, j, o);
    }
    if i: nat, j: nat :| Pair(done, i, j, o) { assert Pair(all, i, j, o); }
    if !act.enable && o in act.options {
      if i: nat :| Hits(done, i, true, o) { assert Pair(all, i, |done|, o); }
    }
  }

  /** What the last call does to one option. */
  lemma LastCall(opts: Options, before: set<string>, acts: seq<Act>, o: string)
    requires acts != []
    ensures var (s, t) := (Play(opts, before, acts[..|acts| - 1]), Play(opts, before, acts));
            var act := LastDone(opts, before, acts);
            && (o in t.on <==> if o in act.options then act.enable else o in s.on)
            && (t.Enabled(o) <==> s.Enabled(o) || (act.enable && o in act.options && o !in s.on))
            && (t.Disabled(o) <==> s.Disabled(o) || (!act.enable && o in act.options && o in s.on))
  {
    var act := LastDone(opts, before, acts);
    ChangeMeans(opts, Play(opts, before, acts[..|acts| - 1]), act.options, act.enable, o);
  }

  lemma {:induction false} OffAtFirst(opts: Options, before: set<string>, acts: seq<Act>, o: string)
    requires o !in before
    ensures var s := Play(opts, before, acts);
            && (s.Enabled(o) <==> EverEnabled(Done(opts, before, acts), o))
            && (s.Disabled(o) <==> EnabledThenDisabled(Done(opts, before, acts), o))
            && (o in s.on ==> s.Enabled(o)) && (s.Enabled(o) && o !in s.on ==> s.Disabled(o))
  {
    if acts != [] {
      var init := acts[..|acts| - 1];
      OffAtFirst(opts, before, init, o);
      EverOneMore(Done(opts, before, init), LastDone(opts, before, acts), o);
      BothOneMore(Done(opts, before, init), LastDone(opts, before, acts), o);
      LastCall(opts, before, acts, o);
    }
  }

  lemma {:induction false} OnAtFirst(opts: Options, before: set<string>, acts: seq<Act>, o: string)
    requires o in before
    ensures var s := Play(opts, before, acts);
            && (s.Enabled(o) ==> s.Disabled(o)) && (o !in s.on ==> s.Disabled(o))
  {
    if acts != [] {
      OnAtFirst(opts, before, acts[..|acts| - 1], o);
      LastCall(opts, before, acts, o);
    }
  }

  /** What a drop does to one option. */
  lemma DroppedMeans(opts: Options, s: State, o: string)
    requires s.Sound(opts)
    ensures o in s.Dropped() <==>
            if o in opts.setNames then o in First(s.setDisabled) || (o in s.on && o !in First(s.setEnabled))
            else s.Disabled(o) || (o in s.on && !s.Enabled(o))
  {
  }

  /**
   What a drop that goes through leaves on.  Of the options of `shopt`: those that were on at first, and
   those that were off, were then enabled through the guard and later disabled through it.  Of the options
   of `set`: the first disabled one, and those on at the end other than the first enabled one.
   */
  ghost predicate Leaves(opts: Options, before: set<string>, s: State, done: seq<Act>, o: string) {
    if o in opts.setNames then o in First(s.setDisabled) || (o in s.on && o !in First(s.setEnabled))
    else o in before || EnabledThenDisabled(done, o)
  }

  lemma DropLeaves(opts: Options, before: set<string>, acts: seq<Act>, o: string)
    ensures var s := Play(opts, before, acts);
            o in s.Dropped() <==> Leaves(opts, before, s, Done(opts, before, acts), o)
  {
    PlayIsSound(opts, before, acts);
    DroppedMeans(opts, Play(opts, before, acts), o);
    if o in before { OnAtFirst(opts, before, acts, o); } else { OffAtFirst(opts, before, acts, o); }
  }

  /** Every option of `set` whose status changed is the first the guard changed in that direction. */
  ghost predicate OnlyFirstChanged(opts: Options, before: set<string>, s: State) {
    forall o :: o in opts.setNames && (o in s.on) != (o in before) ==> o in First(if o in s.on then s.setEnabled else s.setDisabled)
  }

  /** The first option of `set` in either direction was as the drop will leave it. */
  predicate FirstsUndone(before: set<string>, s: State) {
    && First(s.setDisabled) <= before
    && (First(s.setEnabled) !! before || First(s.setEnabled) == First(s.setDisabled))
  }

  /** A drop that goes through restores exactly when these hold. */
  lemma DroppedIsBefore(opts: Options, before: set<string>, acts: seq<Act>)
    ensures var s := Play(opts, before, acts);
            s.Dropped() == before <==> Undoes(opts, before, s, Done(opts, before, acts))
  {
    var s := Play(opts, before, acts);
    forall o ensures o in s.Dropped() <==> Leaves(opts, before, s, Done(opts, before, acts), o) {
      DropLeaves(opts, before, acts, o);
    }
    PlayIsSound(opts, before, acts);
    LeavesBefore(opts, before, s, Done(opts, before, acts));
  }

  lemma LeavesBefore(opts: Options, before: set<string>, s: State, done: seq<Act>)
    requires s.Sound(opts) && forall o :: o in s.Dropped() <==> Leaves(opts, before, s, done, o)
    ensures s.Dropped() == before <==> Undoes(opts, before, s, done)
  {
    if Undoes(opts, before, s, done) {
      forall o ensures o in s.Dropped() <==> o in before {
        assert o in s.Dropped() <==> Leaves(opts, before, s, done, o);
      }
    }
    if s.Dropped() == before {
      assert forall o :: o in First(s.setDisabled) + First(s.setEnabled) ==> o in opts.setNames;
      assert forall o :: Leaves(opts, before, s, done, o) <==> o in before;
    }
  }

  /** No option of `shopt` is left on, and of `set` only first options are left changed. */
  ghost predicate Undoes(opts: Options, before: set<string>, s: State, done: seq<Act>) {
    && (forall o :: o !in opts.setNames && EnabledThenDisabled(done, o) ==> o in before)
    && OnlyFirstChanged(opts, before, s) && FirstsUndone(before, s)
  }

  ghost predicate Restores(opts: Options, before: set<string>, acts: seq<Act>) {
    var s := Play(opts, before, acts);
    s.CanDrop(opts) && Undoes(opts, before, s, Done(opts, before, acts))
  }

  /** An option that cannot be changed back was changed for good, by the guard. */
  lemma {:induction false} StuckForGood(opts: Options, before: set<string>, acts: seq<Act>, o: string)
    ensures var s := Play(opts, before, acts);
            && (o in opts.stuckOn && s.Enabled(o) ==> o in s.on && o !in before)
            && (o in opts.stuckOff && s.Disabled(o) ==> o !in s.on && o in before)
            && (o in opts.stuckOn && o in before ==> o in s.on)
            && (o in opts.stuckOff && o !in before ==> o !in s.on)
  {
    if acts != [] {
      StuckForGood(opts, before, acts[..|acts| - 1], o);
      LastCall(opts, before, acts, o);
    }
  }

  /** The drop did not get to undo the change of an option. */
  predicate StuckAfter(opts: Options, s: State, o: string) {
    || (o in opts.stuckOn && s.Enabled(o) && o in s.AfterDrop(opts))
    || (o in opts.stuckOff && s.Disabled(o) && o !in s.AfterDrop(opts))
  }

  /** All four calls of the drop succeed. */
  predicate Finishes(opts: Options, s: State) {
    && AsSet(s.shoptEnabled) * s.ShoptOff(opts) == {} && AsSet(s.shoptDisabled) <= s.ShoptOn(opts)
    && First(s.setEnabled) * s.SetOff(opts) == {} && First(s.setDisabled) <= s.SetOn(opts)
  }

  lemma FinishesMeans(opts: Options, s: State)
    requires s.Sound(opts)
    ensures Finishes(opts, s) <==> s.CanDrop(opts)
  {
    if o :| o in AsSet(s.shoptEnabled) + First(s.setEnabled) && o in opts.stuckOn {
      assert s.Enabled(o) && o in s.on;
      assert o in AsSet(s.shoptEnabled) ==> o in AsSet(s.shoptEnabled) * s.ShoptOff(opts);
      assert o in First(s.setEnabled) ==> o in First(s.setEnabled) * s.SetOff(opts);
    } else if o :| o in AsSet(s.shoptDisabled) + First(s.setDisabled) && o in opts.stuckOff {
      assert s.Disabled(o) && o !in s.on;
      assert o !in s.ShoptOn(opts) && o !in s.SetOn(opts);
    }
  }

  /** A call that is left out because its list is empty would change nothing and succeed. */
  lemma SkippedCalls(opts: Options, s: State)
    ensures s.shoptEnabled == [] ==> s.ShoptOff(opts) == s.on && AsSet(s.shoptEnabled) == {}
    ensures s.shoptDisabled == [] ==> s.ShoptOn(opts) == s.ShoptOff(opts) && AsSet(s.shoptDisabled) == {}
    ensures s.setEnabled == [] ==> s.SetOff(opts) == s.ShoptOn(opts)
    ensures s.setDisabled == [] ==> s.SetOn(opts) == s.SetOff(opts)
  {
  }

  /** A drop undoes everything, or fails to undo the change of some option. */
  lemma AfterDropMeans(opts: Options, s: State)
    requires s.Sound(opts)
    ensures Finishes(opts, s) <==> s.CanDrop(opts)
    ensures s.CanDrop(opts) ==> s.AfterDrop(opts) == s.Dropped()
    ensures !s.CanDrop(opts) ==> exists o :: StuckAfter(opts, s, o)
  {
    FinishesMeans(opts, s);
    if !s.CanDrop(opts) { var _ := FindStuck(opts, s); }
  }

  lemma FindStuck(opts: Options, s: State) returns (o: string)
    requires s.Sound(opts) && !Finishes(opts, s)
    ensures StuckAfter(opts, s, o)
  {
    if AsSet(s.shoptEnabled) * s.ShoptOff(opts) != {} {
      o :| o in AsSet(s.shoptEnabled) * s.ShoptOff(opts);
    } else if !(AsSet(s.shoptDisabled) <= s.ShoptOn(opts)) {
      o :| o in AsSet(s.shoptDisabled) && o !in s.ShoptOn(opts);
    } else if First(s.setEnabled) * s.SetOff(opts) != {} {
      o :| o in First(s.setEnabled) * s.SetOff(opts);
    } else {
      o :| o in First(s.setDisabled) && o !in s.SetOn(opts);
    }
  }

  /**
   A guard's life restores the options exactly when none it has to change back is refused, no option of
   `shopt` that was off at first was enabled and later disabled, and of `set` at most one option was left
   changed in each direction, the first one.
   */
  lemma DropRestores(opts: Options, before: set<string>, acts: seq<Act>)
    ensures Play(opts, before, acts).AfterDrop(opts) == before <==> Restores(opts, before, acts)
  {
    var s := Play(opts, before, acts);
    PlayIsSound(opts, before, acts);
    AfterDropMeans(opts, s);
    if s.CanDrop(opts) {
      DroppedIsBefore(opts, before, acts);
    } else {
      var o :| StuckAfter(opts, s, o);
      StuckForGood(opts, before, acts, o);
    }
  }

  lemma PassedAll(opts: Options, on: set<string>, options: seq<string>, enable: bool)
    requires forall o :: o in options ==> opts.Passes(on, o, enable)
    ensures Passed(opts, on, options, enable) == options
  {
  }

  lemma ChangeNothing(opts: Options, s: State, enable: bool)
    ensures s.Change(opts, [], enable) == s
  {
    assert AsSet([]) == {};
  }

  lemma ChangeOne(opts: Options, s: State, o: string, enable: bool)
    requires (o in s.on) != enable
    ensures s.Change(opts, [o], enable) == Turned(opts, s, o, enable)
  {
    ChangeNothing(opts, s, enable);
    OneMore(opts, s, [], enable, o);
    assert [] + [o] == [o];
  }

  lemma ChangeTwo(opts: Options, s: State, a: string, b: string, enable: bool)
    requires (a in s.on) != enable && (b in s.on) != enable
    ensures s.Change(opts, [a, b], enable) == Turned(opts, Turned(opts, s, a, enable), b, enable)
  {
    ChangeOne(opts, s, a, enable);
    OneMore(opts, s, [a], enable, b);
    assert [a] + [b] == [a, b];
  }

  /** A history of one call that gets past all its options, and one more such call. */
  lemma PlayOnce(opts: Options, before: set<string>, act: Act)
    requires forall o :: o in act.options ==> opts.Passes(before, o, act.enable)
    ensures Play(opts, before, [act]) == State(before, [], [], [], []).Change(opts, act.options, act.enable)
  {
    assert [act][..0] == [];
    PassedAll(opts, before, act.options, act.enable);
  }

  lemma PlayTwice(opts: Options, before: set<string>, act: Act, next: Act)
    requires forall o :: o in next.options ==> opts.Passes(Play(opts, before, [act]).on, o, next.enable)
    ensures Play(opts, before, [act, next]) == Play(opts, before, [act]).Change(opts, next.options, next.enable)
  {
    assert [act, next][..1] == [act];
    PassedAll(opts, Play(opts, before, [act]).on, next.options, next.enable);
  }

  /** An option that the shell lets a guard turn on but not off again stays on. */
  lemma StuckStaysOn(opts: Options, before: set<string>, o: string)
    requires o in opts.setNames + opts.shoptNames && o !in before + opts.stuckOff && o in opts.stuckOn
    ensures var s := Play(opts, before, [Act([o], true)]);
            !s.CanDrop(opts) && s.AfterDrop(opts) == before + {o} && s.Dropped() == before
  {
    var s := State(before, [], [], [], []);
    PlayOnce(opts, before, Act([o], true));
    ChangeOne(opts, s, o, true);
    NotUndone(opts, before, o);
  }

  lemma NotUndone(opts: Options, before: set<string>, o: string)
    requires o !in before && o in opts.stuckOn
    ensures var s := Turned(opts, State(before, [], [], [], []), o, true);
            !s.CanDrop(opts) && s.AfterDrop(opts) == before + {o} && s.Dropped() == before
  {
    OneName(o, before + {o});
    assert AsSet([]) == {};
  }

  /** The shortest history that does not restore although everything can be changed back. */
  lemma EnableThenDisableStaysOn()
    ensures var opts := Options({}, {"autocd"}, {}, {});
            Play(opts, {}, [Act(["autocd"], true), Act(["autocd"], false)]).AfterDrop(opts) == {"autocd"}
  {
    var opts := Options({}, {"autocd"}, {}, {});
    var none, one := State({}, [], [], [], []), State({"autocd"}, ["autocd"], [], [], []);
    PlayOnce(opts, {}, Act(["autocd"], true));
    ChangeOne(opts, none, "autocd", true);
    PlayTwice(opts, {}, Act(["autocd"], true), Act(["autocd"], false));
    ChangeOne(opts, one, "autocd", false);
    BothListed(opts, "autocd");
  }

  /** A drop that has an option of `shopt` in both lists leaves it on. */
  lemma BothListed(opts: Options, o: string)
    requires o !in opts.stuckOn + opts.stuckOff
    ensures State({}, [o], [o], [], []).AfterDrop(opts) == {o}
  {
    OneName(o, {});
    OneName(o, {o});
  }

  /** Of two options of `set` that were off, only the first is turned off again, if it can be. */
  lemma SecondSetOptionStays(opts: Options, before: set<string>, a: string, b: string)
    requires a in opts.setNames && b in opts.setNames && a != b
    requires a !in before + opts.stuckOff && b !in before + opts.stuckOff
    ensures Play(opts, before, [Act([a, b], true)]).AfterDrop(opts) ==
            if a in opts.stuckOn then before + {a, b} else before + {b}
  {
    PlayTwo(opts, before, a, b);
    FirstUndone(opts, before, a, b);
  }

  lemma PlayTwo(opts: Options, before: set<string>, a: string, b: string)
    requires a in opts.setNames && b in opts.setNames
    requires a !in before + opts.stuckOff && b !in before + opts.stuckOff
    ensures Play(opts, before, [Act([a, b], true)]) == State(before + {a} + {b}, [], [], [a, b], [])
  {
    PlayOnce(opts, before, Act([a, b], true));
    ChangeTwo(opts, State(before, [], [], [], []), a, b, true);
  }

  lemma FirstUndone(opts: Options, before: set<string>, a: string, b: string)
    requires a != b && a !in before && b !in before
    ensures State(before + {a} + {b}, [], [], [a, b], []).AfterDrop(opts) ==
            if a in opts.stuckOn then before + {a, b} else before + {b}
  {
    var t := State(before + {a} + {b}, [], [], [a, b], []);
    assert AsSet([]) == {};
    assert t.ShoptOff(opts) == t.ShoptOn(opts) == before + {a, b};
    assert t.SetOff(opts) == t.SetOn(opts) == if a in opts.stuckOn then before + {a, b} else before + {b};
  }
}
