/**
 Capturing bash errors (`crates/scallop/src/error.rs`, `crates/scallop/src/shell.rs`): calls into bash
 nest, every level keeps its latest error, and subprocesses pass theirs through a shared buffer.
 */
module ErrorCapture {
  import opened Wrappers

  type Byte = x: int | 0 <= x < 256

  /** Bytes of a C string. */
  type Letter = x: int | 1 <= x < 256 witness 1

  type Message = seq<Letter>

  datatype Error = Bail(msg: Message) | Base(msg: Message) | IO(msg: Message) | Status(code: int)

  /** What a call returns: an exit status or an error. */
  datatype Outcome = Done(status: int) | Failed(error: Error)

  /** What happens inside a call. */
  datatype Event =
    | BashError(msg: Message, status: Byte)
    | ShmError(text: Message, bail: bool)
    | Call(body: seq<Event>, result: Outcome)

  /** A message waiting in shared memory, with its status byte. */
  datatype Note = Note(msg: Message, status: Byte)

  const SIZE := 4096

  // "scallop: "
  const PREFIX: Message := [115, 99, 97, 108, 108, 111, 112, 58, 32]

  function Stripped(msg: Message): Message {
    if PREFIX <= msg then msg[|PREFIX|..] else msg
  }

  /** The error a bash message stands for, if it says anything. */
  function Native(msg: Message, status: Byte, longjmp: Byte): Option<Error> {
    if Stripped(msg) == [] then None
    else Some(if status == longjmp then Bail(Stripped(msg)) else Base(Stripped(msg)))
  }

  /** The bytes of a buffer up to its first zero. */
  function Text(s: seq<Byte>): Message {
    if s == [] || s[0] == 0 then [] else [s[0]] + Text(s[1..])
  }

  lemma {:induction false} TextIs(s: seq<Byte>, m: Message)
    requires |m| < |s| && s[|m|] == 0 && forall i :: 0 <= i < |m| ==> s[i] == m[i]
    ensures Text(s) == m
  {
    if m != [] {
      TextIs(s[1..], m[1..]);
    }
  }

  // ---------------------------------------------------------------- what calls should return

  /** What a shared-memory error leaves waiting: its first bytes, or nothing when it is empty. */
  function Left(msg: Message, bail: bool, longjmp: Byte): Option<Note> {
    if msg == [] then None
    else Some(Note(if |msg| <= SIZE - 2 then msg else msg[..SIZE - 2], if bail then longjmp else 1))
  }

  /** The errors recorded directly at the level of these events, oldest first. */
  function Own(events: seq<Event>, longjmp: Byte): seq<Error> {
    if events == [] then [] else
      var n := |events| - 1;
      Own(events[..n], longjmp) + OwnOf(events[n], longjmp)
  }

  function OwnOf(event: Event, longjmp: Byte): seq<Error> {
    if event.BashError? then Noted(Native(event.msg, event.status, longjmp)) else []
  }

  function Noted(e: Option<Error>): seq<Error> {
    if e.None? then [] else [e.value]
  }

  /** What waits in shared memory after these events: the latest error since the latest call returned. */
  function Waiting(events: seq<Event>, before: Option<Note>, longjmp: Byte): Option<Note> {
    if events == [] then before else
      var n := |events| - 1;
      WaitingAfter(events[n], Waiting(events[..n], before, longjmp), longjmp)
  }

  function WaitingAfter(event: Event, before: Option<Note>, longjmp: Byte): Option<Note> {
    match event
    case BashError(_, _) => before
    case ShmError(text, bail) => Left(text, bail, longjmp)
    case Call(_, _) => None
  }

  function Raised(note: Option<Note>, longjmp: Byte): seq<Error> {
    if note.None? then [] else Noted(Native(note.value.msg, note.value.status, longjmp))
  }

  /** A call returns the last error of its own level, shared memory last, or else its function's result. */
  function Expected(body: seq<Event>, result: Outcome, before: Option<Note>, longjmp: Byte): Outcome {
    var errors := Own(body, longjmp) + Raised(Waiting(body, before, longjmp), longjmp);
    if errors == [] then result else Failed(errors[|errors| - 1])
  }

  /** What all calls in these events return, in the order they return. */
  function Returns(events: seq<Event>, before: Option<Note>, longjmp: Byte): seq<Outcome>
    decreases events, 1
  {
    if events == [] then [] else
      var n := |events| - 1;
      Returns(events[..n], before, longjmp) + ReturnsOf(events[n], Waiting(events[..n], before, longjmp), longjmp)
  }

  function ReturnsOf(event: Event, before: Option<Note>, longjmp: Byte): seq<Outcome>
    decreases event, 0
  {
    if event.Call? then Returns(event.body, before, longjmp) + [Expected(event.body, event.result, before, longjmp)] else []
  }

  /** One more event. */
  lemma OneMore(events: seq<Event>, i: nat, before: Option<Note>, longjmp: Byte)
    requires i < |events|
    ensures Own(events[..i + 1], longjmp) == Own(events[..i], longjmp) + OwnOf(events[i], longjmp)
    ensures var waiting := Waiting(events[..i], before, longjmp);
            && Waiting(events[..i + 1], before, longjmp) == WaitingAfter(events[i], waiting, longjmp)
            && Returns(events[..i + 1], before, longjmp) == Returns(events[..i], before, longjmp) + ReturnsOf(events[i], waiting, longjmp)
  {
    assert events[..i + 1][..i] == events[..i];
  }

  /** The map after errors at a level: only the last one stays. */
  function Recorded(errors: map<nat, Error>, level: nat, more: seq<Error>): map<nat, Error> {
    if more == [] then errors else errors[level := more[|more| - 1]]
  }

  lemma RecordedTwice(errors: map<nat, Error>, level: nat, a: seq<Error>, b: seq<Error>)
    ensures Recorded(Recorded(errors, level, a), level, b) == Recorded(errors, level, a + b)
  {
  }

  lemma Removed(errors: map<nat, Error>, level: nat, more: seq<Error>)
    requires level !in errors
    ensures var m := Recorded(errors, level, more);
            && m - {level} == errors && (level in m <==> more != [])
            && (more != [] ==> m[level] == more[|more| - 1])
  {
    assert Recorded(errors, level, more) - {level} == errors;
  }

  // ---------------------------------------------------------------- the implementation

  class Shell {
    var level: nat
    var errors: map<nat, Error>
    const shm: array<Byte>
    const longjmp: Byte

    /** No error is kept above the current level, and the buffer always ends its message. */
    ghost predicate Valid()
      reads this, shm
    {
      && shm.Length == SIZE && shm[SIZE - 2] == 0
      && forall k :: k in errors ==> k <= level
    }

    ghost function Pending(): Option<Note>
      requires Valid()
      reads this, shm
    {
      if shm[0] == 0 then None else Some(Note(Text(shm[..]), shm[SIZE - 1]))
    }

    constructor (longjmp: Byte)
      ensures Valid() && fresh(shm) && Pending() == None && level == 0 && errors == map[] && this.longjmp == longjmp
    {
      level, errors, this.longjmp := 0, map[], longjmp;
      shm := new Byte[SIZE](_ => 0);
    }

    /** `error::reset` */
    method Reset()
      requires Valid()
      modifies this
      ensures Valid() && level == 0 && errors == map[] && Pending() == old(Pending())
    {
      errors, level := map[], 0;
    }

    /** `bash_error` */
    method BashError(msg: Message, status: Byte)
      requires Valid()
      modifies this`errors
      ensures Valid() && Pending() == old(Pending())
      ensures errors == Recorded(old(errors), level, Noted(Native(msg, status, longjmp)))
    {
      var stripped := Stripped(msg);
      if stripped != [] {
        var e := if status == longjmp then Bail(stripped) else Base(stripped);
        errors := errors[level := e];
      }
    }

    /** `set_shm_error` */
    method SetShmError(msg: Message, bail: bool)
      requires Valid()
      modifies shm
      ensures Valid() && Pending() == Left(msg, bail, longjmp)
    {
      var data: seq<Byte> := Bytes(msg) + [0];
      var len := if |data| < SIZE then |data| else SIZE;
      var status: Byte := if bail then longjmp else 1;
      forall i | 0 <= i < len { shm[i] := data[i]; }
      shm[SIZE - 2] := 0;
      shm[SIZE - 1] := status;
      TextIs(shm[..], if |msg| <= SIZE - 2 then msg else msg[..SIZE - 2]);
    }

    /** `raise_shm_error` */
    method RaiseShmError()
      requires Valid()
      modifies this`errors, shm
      ensures Valid() && Pending() == None
      ensures errors == Recorded(old(errors), level, Raised(old(Pending()), longjmp))
    {
      if shm[0] != 0 {
        var msg := ReadText();
        BashError(msg, shm[SIZE - 1]);
        shm[0] := 0;
      }
    }

    /** `CStr::from_ptr` on the buffer. */
    method ReadText() returns (msg: Message)
      requires Valid()
      ensures msg == Text(shm[..])
    {
      msg := [];
      var i := 0;
      while shm[i] != 0
        invariant i < SIZE - 1 && Text(shm[..]) == msg + Text(shm[i..])
        decreases SIZE - i
      {
        assert shm[i..][1..] == shm[i + 1..];
        assert msg + ([shm[i]] + Text(shm[i + 1..])) == (msg + [shm[i]]) + Text(shm[i + 1..]);
        msg := msg + [shm[i]];
        i := i + 1;
      }
    }

    /** `ok_or_error` around a function that does what `body` says and returns `result`. */
    method OkOrError(body: seq<Event>, result: Outcome) returns (r: Outcome, log: seq<Outcome>)
      requires Valid()
      modifies this, shm
      ensures Valid() && level == old(level) && errors == old(errors) && Pending() == None
      ensures r == Expected(body, result, old(Pending()), longjmp)
      ensures log == Returns(body, old(Pending()), longjmp)
      decreases body, 2
    {
      level := level + 1;
      log := Run(body);
      ghost var raised := Raised(Pending(), longjmp);
      RaiseShmError();
      var own := level;
      RecordedTwice(old(errors), own, Own(body, longjmp), raised);
      assert errors == Recorded(old(errors), own, Own(body, longjmp) + raised);
      Removed(old(errors), own, Own(body, longjmp) + raised);
      level := level - 1;
      if own in errors {
        r := Failed(errors[own]);
        errors := errors - {own};
      } else {
        r := result;
      }
    }

    /** One event. */
    method Step(event: Event) returns (log: seq<Outcome>)
      requires Valid()
      modifies this, shm
      ensures Valid() && level == old(level) && errors == Recorded(old(errors), level, OwnOf(event, longjmp))
      ensures Pending() == WaitingAfter(event, old(Pending()), longjmp)
      ensures log == ReturnsOf(event, old(Pending()), longjmp)
      decreases event, 0
    {
      log := [];
      match event {
        case BashError(msg, status) => BashError(msg, status);
        case ShmError(text, bail) => SetShmError(text, bail);
        case Call(body, result) =>
          var r, inner := OkOrError(body, result);
          log := inner + [r];
      }
    }

    /** The events of a function, in order. */
    method Run(events: seq<Event>) returns (log: seq<Outcome>)
      requires Valid()
      modifies this, shm
      ensures Valid() && level == old(level) && errors == Recorded(old(errors), level, Own(events, longjmp))
      ensures Pending() == Waiting(events, old(Pending()), longjmp)
      ensures log == Returns(events, old(Pending()), longjmp)
      decreases events, 1
    {
      log := [];
      for i := 0 to |events|
        invariant Valid() && level == old(level) && errors == Recorded(old(errors), level, Own(events[..i], longjmp))
        invariant Pending() == Waiting(events[..i], old(Pending()), longjmp)
        invariant log == Returns(events[..i], old(Pending()), longjmp)
      {
        OneMore(events, i, old(Pending()), longjmp);
        RecordedTwice(old(errors), level, Own(events[..i], longjmp), OwnOf(events[i], longjmp));
        var more := Step(events[i]);
        log := log + more;
      }
      assert events[..|events|] == events;
    }

    /**
     A run after a reset returns what a run in a new shell would, whatever was recorded before and however
     deep; only a message still waiting in shared memory survives.
     */
    method RunAfterReset(events: seq<Event>) returns (log: seq<Outcome>)
      requires Valid()
      modifies this, shm
      ensures Valid() && level == 0 && errors == Recorded(map[], 0, Own(events, longjmp))
      ensures Pending() == Waiting(events, old(Pending()), longjmp)
      ensures log == Returns(events, old(Pending()), longjmp)
    {
      Reset();
      log := Run(events);
    }
  }

  function Bytes(msg: Message): (s: seq<Byte>)
    ensures |s| == |msg| && forall i :: 0 <= i < |msg| ==> s[i] == msg[i]
  {
    seq(|msg|, i requires 0 <= i < |msg| => msg[i])
  }

  // ---------------------------------------------------------------- what the protocol means

  /** Without shared memory, what nested calls do never shows outside: the result is the last own error. */
  lemma {:induction false} NestedErrorsStayInside(body: seq<Event>, result: Outcome, longjmp: Byte)
    requires forall i :: 0 <= i < |body| ==> !body[i].ShmError?
    ensures Expected(body, result, None, longjmp) == LastOwn(body, result, longjmp)
  {
    NothingWaits(body, longjmp);
    LastOwnMeans(body, result, longjmp);
  }

  /** The latest message with text among the events themselves, or the result. */
  function LastOwn(body: seq<Event>, result: Outcome, longjmp: Byte): Outcome {
    if body == [] then result else
      var e := body[|body| - 1];
      if e.BashError? && Stripped(e.msg) != [] then Failed(Native(e.msg, e.status, longjmp).value)
      else LastOwn(body[..|body| - 1], result, longjmp)
  }

  lemma {:induction false} LastOwnMeans(body: seq<Event>, result: Outcome, longjmp: Byte)
    ensures var own := Own(body, longjmp);
            LastOwn(body, result, longjmp) == if own == [] then result else Failed(own[|own| - 1])
  {
    if body != [] { LastOwnMeans(body[..|body| - 1], result, longjmp); }
  }

  lemma {:induction false} NothingWaits(body: seq<Event>, longjmp: Byte)
    requires forall i :: 0 <= i < |body| ==> !body[i].ShmError?
    ensures Waiting(body, None, longjmp) == None
  {
    if body != [] { NothingWaits(body[..|body| - 1], longjmp); }
  }

  /**
   A message a subprocess left before a nested call is returned by that call, not by the one around it,
   as long as the nested call leaves none of its own.
   */
  lemma LeftForTheNextCall(text: Message, bail: bool, inner: Outcome, outer: Outcome, longjmp: Byte)
    requires Stripped(text) != [] && |text| <= SIZE - 2
    ensures var body := [ShmError(text, bail), Call([], inner)];
            && Returns(body, None, longjmp) == [Failed(Native(text, if bail then longjmp else 1, longjmp).value)]
            && Expected(body, outer, None, longjmp) == outer
  {
    var shm, call := ShmError(text, bail), Call([], inner);
    var body := [shm, call];
    OneMore(body, 0, None, longjmp);
    OneMore(body, 1, None, longjmp);
    assert body[..0] == [] && body[..2] == body;
    assert Waiting([], None, longjmp) == None && Own([], longjmp) == [];
  }

  /** The bail flag survives the buffer: the error that comes out is a bail exactly when one went in. */
  lemma BailFlagSurvives(text: Message, bail: bool, longjmp: Byte)
    requires longjmp != 1
    ensures var kept := if |text| <= SIZE - 2 then text else text[..SIZE - 2];
            Raised(Left(text, bail, longjmp), longjmp) ==
            if Stripped(kept) == [] then [] else if bail then [Bail(Stripped(kept))] else [Base(Stripped(kept))]
  {
    assert PREFIX[0] == 115;
  }

  // ---------------------------------------------------------------- messages, byte by byte

  /** The shell name bash puts in front is `scallop: `. */
  lemma PrefixIs()
    ensures |PREFIX| == |"scallop: "| && forall i :: 0 <= i < |PREFIX| ==> PREFIX[i] as char == "scallop: "[i]
  {
  }

  /** What is recorded for a message: without the shell name once, nothing when no more is left, and a bail by its status. */
  lemma RecordedText(msg: Message, status: Byte, longjmp: Byte)
    ensures Native(PREFIX + msg, status, longjmp) ==
            if msg == [] then None else Some(if status == longjmp then Bail(msg) else Base(msg))
    ensures msg != [] && !(PREFIX <= msg) ==> Native(msg, status, longjmp) == Some(if status == longjmp then Bail(msg) else Base(msg))
    ensures Native([], status, longjmp) == None
  {
    assert (PREFIX + msg)[|PREFIX|..] == msg;
  }

  /** Of a longer message the first 4094 bytes are kept; the status byte is 1 unless it is a bail. */
  lemma KeptBytes(msg: Message, bail: bool, longjmp: Byte)
    requires msg != []
    ensures var note := Left(msg, bail, longjmp);
            && note.Some? && note.value.msg <= msg && |note.value.msg| == (if |msg| < 4094 then |msg| else 4094)
            && note.value.status == if bail then longjmp else 1
  {
  }

  /** An error from a subprocess that has some text and comes last is the result, whatever was recorded before. */
  lemma SharedErrorIsLast(body: seq<Event>, text: Message, bail: bool, result: Outcome, before: Option<Note>, longjmp: Byte)
    requires Stripped(text) != [] && |text| <= 4094
    ensures Expected(body + [ShmError(text, bail)], result, before, longjmp) ==
            Failed(Native(text, if bail then longjmp else 1, longjmp).value)
  {
    InitOne(body, ShmError(text, bail));
  }

  /** Of two errors at one level the later one is the result. */
  lemma LaterErrorWins(body: seq<Event>, msg: Message, status: Byte, result: Outcome, longjmp: Byte)
    requires Stripped(msg) != [] && Waiting(body, None, longjmp) == None
    ensures Expected(body + [BashError(msg, status)], result, None, longjmp) == Failed(Native(msg, status, longjmp).value)
  {
    InitOne(body, BashError(msg, status));
  }
}
