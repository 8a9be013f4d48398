/** The host's staged errors: how they are made, searched and collected. */
module HostErrors {
  import opened Prelude
  import opened Errors

  const CONFIG := "config"
  const REGISTRATION := "registration"
  const HANDLER := "handler"
  const SERVE := "serve"
  const SHUTDOWN := "shutdown"

  predicate ValidStage(stage: string) {
    stage in {CONFIG, REGISTRATION, HANDLER, SERVE, SHUTDOWN}
  }

  predicate IsSpace(c: char) {
    var n := c as int;
    9 <= n <= 13 || n in {0x20, 0x85, 0xa0, 0x1680, 0x2028, 0x2029, 0x202f, 0x205f, 0x3000} || 0x2000 <= n <= 0x200a
  }

  /** The length of a string in UTF-8. */
  function ByteLength(s: string): nat {
    if s == [] then 0
    else
      var n := s[0] as int;
      (if n < 0x80 then 1 else if n < 0x800 then 2 else if n < 0x1_0000 then 3 else 4) + ByteLength(s[1..])
  }

  /** `validMessage`: not empty, short, no space at either end, no control character. */
  predicate ValidMessage(message: string) {
    && message != "" && ByteLength(message) <= 128
    && !IsSpace(message[0]) && !IsSpace(message[|message| - 1])
    && forall c :: c in message ==> c as int >= 0x20 && c as int != 0x7f
  }

  function TrimLeft(s: string): string {
    if s != "" && IsSpace(s[0]) then TrimLeft(s[1..]) else s
  }

  function TrimRight(s: string): string {
    if s != "" && IsSpace(s[|s| - 1]) then TrimRight(s[..|s| - 1]) else s
  }

  lemma {:induction false} TrimShortens(s: string)
    ensures |TrimLeft(s)| <= |s| && |TrimRight(s)| <= |s|
    decreases |s|
  {
    if s != "" {
      TrimShortens(s[1..]);
      TrimShortens(s[..|s| - 1]);
    }
  }

  lemma TrimmedIff(s: string)
    requires s != ""
    ensures TrimRight(TrimLeft(s)) == s <==> !IsSpace(s[0]) && !IsSpace(s[|s| - 1])
  {
    TrimShortens(s[1..]);
    TrimShortens(s[..|s| - 1]);
    TrimShortens(TrimLeft(s));
  }

  /** `validMessage`, as the source checks it. */
  method CheckMessage(message: string) returns (ok: bool)
    ensures ok <==> ValidMessage(message)
  {
    if message == "" || ByteLength(message) > 128 {
      return false;
    }
    TrimmedIff(message);
    if TrimRight(TrimLeft(message)) != message {
      return false;
    }
    for i := 0 to |message|
      invariant forall j :: 0 <= j < i ==> message[j] as int >= 0x20 && message[j] as int != 0x7f
    {
      var c := message[i] as int;
      if c < 0x20 || c == 0x7f {
        assert message[i] in message;
        return false;
      }
    }
    return true;
  }

  function Wrap(stage: string, message: string, err: Option<Error>): Option<Error> {
    if err.None? then None
    else if !ValidStage(stage) || !ValidMessage(message) then Some(Staged(CONFIG, "invalid host error", err.value))
    else Some(Staged(stage, message, err.value))
  }

  /** `StageOf`: the stage of the first staged error that `errors.As` meets. */
  function StageOf(e: Error): Option<string> {
    match e
    case Staged(stage, _, _) => Some(stage)
    case Wrapped(_, inner) => StageOf(inner)
    case Alone(only) => StageOf(only)
    case Both(first, second) => if StageOf(first).Some? then StageOf(first) else StageOf(second)
    case _ => None
  }

  // ----- joined failures -----

  /** The failures joined into an error, in the order in which they were joined. */
  function Joined(e: Error): (r: seq<Error>)
    ensures r != []
  {
    match e
    case Alone(only) => Joined(only)
    case Both(first, second) => Joined(first) + Joined(second)
    case _ => [e]
  }

  function Reports(e: Option<Error>): seq<Error> {
    if e.None? then [] else Joined(e.value)
  }

  /** A failure that stands by itself: no join at its root. */
  predicate Single(e: Error) {
    !e.Alone? && !e.Both?
  }

  lemma JoinReports(a: Option<Error>, b: Error)
    requires Single(b)
    ensures Reports(Join(a, Some(b))) == Reports(a) + [b]
  {
    assert Joined(b) == [b];
  }

  lemma {:induction false} StageIsFirst(e: Error)
    requires Joined(e)[0].Staged?
    ensures StageOf(e) == Some(Joined(e)[0].stage)
  {
    match e
    case Alone(only) =>
      assert Joined(e) == Joined(only);
      StageIsFirst(only);
    case Both(first, second) =>
      assert Joined(e)[0] == Joined(first)[0];
      StageIsFirst(first);
    case _ =>
  }

  predicate AnyIs(errors: seq<Error>, target: Error) {
    exists i :: 0 <= i < |errors| && Is(errors[i], target)
  }

  lemma InEither(a: seq<Error>, b: seq<Error>, target: Error)
    ensures AnyIs(a + b, target) <==> AnyIs(a, target) || AnyIs(b, target)
  {
    assert forall i :: 0 <= i < |a| ==> (a + b)[i] == a[i];
    assert forall i :: 0 <= i < |b| ==> (a + b)[|a| + i] == b[i];
    assert forall i :: |a| <= i < |a + b| ==> (a + b)[i] == b[i - |a|];
  }

  /** `errors.Is` finds a sentinel in joined failures exactly when it finds it in one of them. */
  lemma {:induction false} IsInJoined(e: Error, name: string)
    ensures Is(e, Sentinel(name)) <==> AnyIs(Joined(e), Sentinel(name))
  {
    match e
    case Alone(only) =>
      assert Joined(e) == Joined(only);
      IsInJoined(only, name);
    case Both(first, second) =>
      IsInJoined(first, name);
      IsInJoined(second, name);
      assert Joined(e) == Joined(first) + Joined(second);
      InEither(Joined(first), Joined(second), Sentinel(name));
    case _ => assert Joined(e)[0] == e;
  }

  // ----- wrapping -----

  /** Whatever the caller passes, the result is staged, hides no cause, and names
      the caller's stage exactly when stage and message are both valid (or when
      the stage was to be config anyway). */
  lemma WrapStages(stage: string, message: string, err: Error)
    ensures Wrap(stage, message, Some(err)).Some? && Wrap(stage, message, None).None?
    ensures var e := Wrap(stage, message, Some(err)).value;
            var known := stage in {"config", "registration", "handler", "serve", "shutdown"};
            && StageOf(e) == Some(if known && ValidMessage(message) then stage else "config")
            && forall name :: Is(e, Sentinel(name)) <==> Is(err, Sentinel(name))
  {
  }

  lemma {:induction false} AsciiLength(s: string)
    requires forall c :: c in s ==> c as int < 0x80
    ensures ByteLength(s) == |s|
  {
    if s != [] {
      assert s[0] in s;
      assert forall c :: c in s[1..] ==> c in s;
      AsciiLength(s[1..]);
    }
  }
}
