/**
 * The test harness of TestingUtils.js: `describe` and `it` keep pass/fail
 * counters for the whole run (`__TEST_SUMMARY`) and for the block being run
 * (`__CURRENT_DESCRIBE`, saved and restored around a nested `describe`),
 * and `assertTrue`, `assertFalse` and `assertFunctionParams` throw when a
 * check fails.
 *
 * The callbacks are not code this model can see. The body of a `describe`
 * is given as the calls it makes, in order (`Step`); the body of an `it` by
 * whether it returns or what it throws. Any value can be thrown: the
 * `catch` blocks read `e.message`, which is itself a TypeError when `e` is
 * null or undefined.
 */
module TestingUtils {
  import opened JsValues
  import JsText
  import JsCoerce

  const OutsideDescribeMessage: string := "Debe llamarse dentro de un describe"
  const TrueMessage: string := "La condición debería ser verdadera"
  const FalseMessage: string := "La condición debería ser falsa"
  const ExpectedThrowMessage: string := "Esperaba error y no ocurrió, o mensaje incorrecto."
  const UnexpectedThrowMessage: string := "No esperaba error y ocurrió uno."

  datatype Counters = Counters(total: nat, passed: nat, failed: nat)

  const Zero: Counters := Counters(0, 0, 0)

  function Plus(a: Counters, b: Counters): Counters
  {
    Counters(a.total + b.total, a.passed + b.passed, a.failed + b.failed)
  }

  lemma PlusAssociative(a: Counters, b: Counters, c: Counters)
    ensures Plus(Plus(a, b), c) == Plus(a, Plus(b, c))
  {
  }

  lemma PlusZero(c: Counters)
    ensures Plus(Zero, c) == c
  {
  }

  /** Every counted test either passed or failed. */
  predicate Balanced(c: Counters)
  {
    c.total == c.passed + c.failed
  }

  lemma PlusBalanced(a: Counters, b: Counters)
    requires Balanced(a) && Balanced(b)
    ensures Balanced(Plus(a, b))
  {
  }

  /** `__CURRENT_DESCRIBE`: the title and counters of the block being run. */
  datatype Block = Block(title: string, counts: Counters)

  /** The harness's module-level state. */
  datatype State = State(summary: Counters, current: Option<Block>)

  predicate StateBalanced(st: State)
  {
    Balanced(st.summary) && (st.current.Some? ==> Balanced(st.current.value.counts))
  }

  /** A thrown value: an `Error` (the engine's own errors included), or any other value. */
  datatype Thrown = ErrorObject(error: JsError) | NonError(value: Value)

  /** A thrown `null` or `undefined`, on which reading `message` throws. */
  predicate Nullish(t: Thrown)
  {
    t.NonError? && (t.value.Null? || t.value.Undefined?)
  }

  /**
   * `e.message` for a caught `e`: the message of an error, the `message`
   * property of another object, `undefined` for a primitive, and a
   * TypeError for null and undefined.
   */
  function MessageOf(host: Host, t: Thrown): (r: Result<Value>)
    ensures r.Throw? <==> Nullish(t)
    ensures r.Throw? ==> r.error == TypeError
    ensures t.ErrorObject? ==> r == Ok(Str(Message(host, t.error)))
    ensures t.NonError? && !t.value.Obj? && !Nullish(t) ==> r == Ok(Undefined)
  {
    match t
    case ErrorObject(e) => Ok(Str(Message(host, e)))
    case NonError(v) => if v.Null? || v.Undefined? then Throw(TypeError) else Ok(Prop(v, "message"))
  }

  /**
   * One call made by the body of a `describe`: `it(title, fn)` whose `fn`
   * returns (`throws` is None) or throws, a nested `describe`, or an
   * exception that escapes the body and ends it.
   */
  datatype Step =
    | RunIt(title: string, throws: Option<Thrown>)
    | Nested(title: string, body: seq<Step>, hideSummary: bool)
    | Raise(thrown: Thrown)

  // ---------------------------------------------------------------------
  // The specification of `it` and `describe`

  /**
   * `it(title, fn)`: outside a block it throws. Inside, the block counts one
   * more test, then one more pass or failure; when `fn` threw null or
   * undefined the `catch` itself throws a TypeError before the failure is
   * counted.
   */
  function ItSpec(st: State, throws: Option<Thrown>): (State, Outcome)
  {
    if st.current.None? then (st, Raised(Error(OutsideDescribeMessage)))
    else
      var b := st.current.value;
      var c := b.counts;
      var counted := Counters(c.total + 1, c.passed, c.failed);
      if throws.None? then (State(st.summary, Some(Block(b.title, counted.(passed := c.passed + 1)))), Done)
      else if Nullish(throws.value) then (State(st.summary, Some(Block(b.title, counted))), Raised(TypeError))
      else (State(st.summary, Some(Block(b.title, counted.(failed := c.failed + 1)))), Done)
  }

  /**
   * The calls of a body, in order, until one of them throws; the state
   * after them and what escaped the body, if anything did.
   */
  function Run(st: State, steps: seq<Step>): (State, Option<Thrown>)
    decreases steps, 0
  {
    if steps == [] then (st, None)
    else if steps[0].Raise? then (st, Some(steps[0].thrown))
    else
      var (next, r) := StepSpec(st, steps[0]);
      if r.Raised? then (next, Some(ErrorObject(r.error))) else Run(next, steps[1..])
  }

  /** A call of a body other than a throw: an `it` or a nested `describe`. */
  function StepSpec(st: State, s: Step): (State, Outcome)
    requires !s.Raise?
    decreases s, 2
  {
    if s.RunIt? then ItSpec(st, s.throws) else DescribeSpec(st, s.title, s.body)
  }

  /**
   * `describe(title, fn, hideSummary)`: the body runs in a fresh block; an
   * exception escaping it is caught; the block's counters are added to
   * the summary and the previous block becomes current again. When the
   * body threw null or undefined, the `catch` throws a TypeError instead,
   * and neither the summary nor the current block is touched after that.
   * `hideSummary` only decides whether a line is logged.
   */
  function DescribeSpec(st: State, title: string, body: seq<Step>): (State, Outcome)
    decreases body, 1
  {
    var (after, escaped) := Run(State(st.summary, Some(Block(title, Zero))), body);
    if escaped.Some? && Nullish(escaped.value) then (after, Raised(TypeError))
    else if after.current.None? then (after, Raised(TypeError))
    else (State(Plus(after.summary, after.current.value.counts), st.current), Done)
  }

  /** What one `it` adds to its block: a pass, a failure, or for a thrown null or undefined only the total. */
  function Tally(throws: Option<Thrown>): Counters
  {
    if throws.None? then Counters(1, 1, 0)
    else if Nullish(throws.value) then Counters(1, 0, 0)
    else Counters(1, 0, 1)
  }

  /** Whether a body goes on after the `it` whose callback did this. */
  predicate Continues(throws: Option<Thrown>)
  {
    throws.None? || !Nullish(throws.value)
  }

  /** The tests a body runs itself, until an exception ends it. */
  function Own(steps: seq<Step>): Counters
  {
    if steps == [] then Zero
    else match steps[0]
      case Raise(_) => Zero
      case RunIt(_, throws) => if Continues(throws) then Plus(Tally(throws), Own(steps[1..])) else Tally(throws)
      case Nested(_, _, _) => Own(steps[1..])
  }

  /** The tests a body runs, those of its nested blocks included, until an exception ends it. */
  function All(steps: seq<Step>): Counters
    decreases steps
  {
    if steps == [] then Zero
    else
      match steps[0]
      case Raise(_) => Zero
      case RunIt(_, throws) => if Continues(throws) then Plus(Tally(throws), All(steps[1..])) else Tally(throws)
      case Nested(_, body, _) => Plus(All(body), All(steps[1..]))
  }

  /** No callback of the body, at any depth, throws null or undefined. */
  predicate Clean(steps: seq<Step>)
    decreases steps, 1
  {
    steps == [] || (StepClean(steps[0]) && Clean(steps[1..]))
  }

  /** The call throws no null or undefined, and neither does any call nested in it. */
  predicate StepClean(s: Step)
    decreases s, 0
  {
    match s
    case Raise(t) => !Nullish(t)
    case RunIt(_, throws) => Continues(throws)
    case Nested(_, body, _) => Clean(body)
  }

  // ---------------------------------------------------------------------
  // Properties of the specification

  /** `it` outside a `describe` throws and changes nothing. */
  lemma ItOutsideDescribe(st: State, throws: Option<Thrown>)
    requires st.current.None?
    ensures ItSpec(st, throws) == (st, Raised(Error(OutsideDescribeMessage)))
  {
  }

  /**
   * Inside a block, `it` adds one to the total, and one to passed when the
   * callback returns, to failed when it throws an object or a primitive
   * other than null and undefined; for null and undefined it adds to
   * neither and throws a TypeError. Nothing else changes.
   */
  lemma ItCounts(st: State, throws: Option<Thrown>)
    requires st.current.Some?
    ensures var (st', r) := ItSpec(st, throws);
      var c := st.current.value.counts;
      var c' := st'.current.value.counts;
      && st'.summary == st.summary && st'.current.Some?
      && st'.current.value.title == st.current.value.title
      && c'.total == c.total + 1
      && (throws.None? ==> r == Done && c'.passed == c.passed + 1 && c'.failed == c.failed)
      && (throws.Some? && !Nullish(throws.value) ==> r == Done && c'.failed == c.failed + 1 && c'.passed == c.passed)
      && (throws.Some? && Nullish(throws.value) ==> r == Raised(TypeError) && c'.failed == c.failed && c'.passed == c.passed)
  {
  }

  /** A thrown null or undefined leaves a counted test that neither passed nor failed. */
  lemma ItNullishUnbalances(st: State, t: Thrown)
    requires st.current.Some? && Balanced(st.current.value.counts) && Nullish(t)
    ensures var st' := ItSpec(st, Some(t)).0;
      st'.current.Some? && !Balanced(st'.current.value.counts)
  {
  }

  /**
   * Inside a block, a body none of whose callbacks throws null or
   * undefined adds its own tests to the block's counters, leaves the block
   * (its title) current, and lets no null or undefined escape.
   */
  lemma {:induction false} RunOwnCounts(st: State, steps: seq<Step>)
    requires st.current.Some? && Clean(steps)
    ensures Run(st, steps).0.current == Some(Block(st.current.value.title, Plus(st.current.value.counts, Own(steps))))
    ensures Run(st, steps).1.Some? ==> !Nullish(Run(st, steps).1.value)
    decreases steps, 0
  {
    if steps != [] {
      var rest := steps[1..];
      match steps[0]
      case Raise(_) =>
      case RunIt(_, throws) =>
        var next := ItSpec(st, throws).0;
        var one := Tally(throws);
        var c := st.current.value.counts;
        assert next.current == Some(Block(st.current.value.title, Plus(c, one)));
        RunOwnCounts(next, rest);
        assert Run(st, steps) == Run(next, rest);
        assert Own(steps) == Plus(one, Own(rest));
        PlusAssociative(c, one, Own(rest));
      case Nested(title, body, _) =>
        var next := DescribeSpec(st, title, body).0;
        DescribeCounts(st, title, body);
        RunOwnCounts(next, rest);
        assert Run(st, steps) == Run(next, rest);
        assert Own(steps) == Own(rest);
    }
  }

  /** Inside a block, such a body adds the tests of its nested blocks, and only those, to the summary. */
  lemma {:induction false} RunNestedCounts(st: State, steps: seq<Step>)
    requires st.current.Some? && Clean(steps)
    ensures Plus(Run(st, steps).0.summary, Own(steps)) == Plus(st.summary, All(steps))
    decreases steps, 0
  {
    if steps != [] {
      var rest := steps[1..];
      assert StepClean(steps[0]) && Clean(rest);
      match steps[0]
      case Raise(_) =>
      case RunIt(_, throws) =>
        var next := ItSpec(st, throws).0;
        assert next.summary == st.summary && next.current.Some?;
        RunNestedCounts(next, rest);
        assert Run(st, steps) == Run(next, rest);
        assert Own(steps) == Plus(Tally(throws), Own(rest));
        assert All(steps) == Plus(Tally(throws), All(rest));
      case Nested(title, body, _) =>
        var next := DescribeSpec(st, title, body).0;
        DescribeCounts(st, title, body);
        assert next == State(Plus(st.summary, All(body)), st.current);
        RunNestedCounts(next, rest);
        assert Run(st, steps) == Run(next, rest);
        assert Own(steps) == Own(rest);
        assert All(steps) == Plus(All(body), All(rest));
        PlusAssociative(st.summary, All(body), All(rest));
    }
  }

  /**
   * A `describe` whose body throws no null or undefined returns normally,
   * adds to the summary every test its body runs, nested blocks included,
   * and restores the block that was current before it: the counters of an
   * enclosing block do not see the tests of a nested one.
   */
  lemma {:induction false} DescribeCounts(st: State, title: string, body: seq<Step>)
    requires Clean(body)
    ensures DescribeSpec(st, title, body) == (State(Plus(st.summary, All(body)), st.current), Done)
    decreases body, 1
  {
    var start := State(st.summary, Some(Block(title, Zero)));
    RunOwnCounts(start, body);
    RunNestedCounts(start, body);
    PlusZero(Own(body));
    DescribeOfRun(st, title, body);
  }

  /** A `describe` whose body lets no null or undefined escape, and leaves a block current, returns normally. */
  lemma DescribeOfRun(st: State, title: string, body: seq<Step>)
    ensures var (after, escaped) := Run(State(st.summary, Some(Block(title, Zero))), body);
      (escaped.None? || !Nullish(escaped.value)) && after.current.Some? ==>
        DescribeSpec(st, title, body) == (State(Plus(after.summary, after.current.value.counts), st.current), Done)
  {
  }

  lemma {:induction false} OwnBalanced(steps: seq<Step>)
    requires Clean(steps)
    ensures Balanced(Own(steps))
  {
    if steps != [] {
      OwnBalanced(steps[1..]);
      var rest := Own(steps[1..]);
      match steps[0]
      case Raise(_) =>
      case RunIt(_, throws) =>
        assert Own(steps) == Plus(Tally(throws), rest);
      case Nested(_, _, _) =>
        assert Own(steps) == rest;
    }
  }

  lemma {:induction false} AllBalanced(steps: seq<Step>)
    requires Clean(steps)
    ensures Balanced(All(steps))
    decreases steps
  {
    if steps != [] {
      AllBalanced(steps[1..]);
      var rest := All(steps[1..]);
      match steps[0]
      case Raise(_) =>
      case RunIt(_, throws) =>
        assert All(steps) == Plus(Tally(throws), rest);
      case Nested(_, body, _) =>
        AllBalanced(body);
        assert All(steps) == Plus(All(body), rest);
    }
  }

  /**
   * `total == passed + failed` holds of the summary and of the current
   * block after a `describe` whose body throws no null or undefined.
   */
  lemma DescribeBalanced(st: State, title: string, body: seq<Step>)
    requires StateBalanced(st) && Clean(body)
    ensures StateBalanced(DescribeSpec(st, title, body).0)
  {
    DescribeCounts(st, title, body);
    AllBalanced(body);
    PlusBalanced(st.summary, All(body));
  }

  /** ... and after an `it` whose callback does not throw null or undefined. */
  lemma ItBalanced(st: State, throws: Option<Thrown>)
    requires StateBalanced(st) && Continues(throws)
    ensures StateBalanced(ItSpec(st, throws).0)
  {
  }

  /** An exception escaping a body ends it: what follows does not run, what came before is still counted. */
  lemma {:induction false} RunStopsAtRaise(st: State, before: seq<Step>, e: Thrown, rest: seq<Step>)
    ensures var (s, escaped) := Run(st, before);
      Run(st, before + [Raise(e)] + rest) == (s, if escaped.Some? then escaped else Some(e))
    decreases |before|
  {
    var steps := before + [Raise(e)] + rest;
    if before == [] {
      assert steps[0] == Raise(e);
    } else {
      assert steps[0] == before[0];
      assert steps[1..] == before[1..] + [Raise(e)] + rest;
      match before[0]
      case Raise(_) =>
      case RunIt(_, throws) =>
        RunStopsAtRaise(ItSpec(st, throws).0, before[1..], e, rest);
      case Nested(title, body, _) =>
        RunStopsAtRaise(DescribeSpec(st, title, body).0, before[1..], e, rest);
    }
  }

  /** A `describe` whose body throws something other than null or undefined counts exactly as one whose body stopped there. */
  lemma DescribeCatches(st: State, title: string, before: seq<Step>, e: Thrown, rest: seq<Step>)
    requires !Nullish(e)
    ensures DescribeSpec(st, title, before + [Raise(e)] + rest) == DescribeSpec(st, title, before)
  {
    RunStopsAtRaise(State(st.summary, Some(Block(title, Zero))), before, e, rest);
  }

  /**
   * A `describe` whose body throws null or undefined, after calls that
   * throw none, itself throws a TypeError: its block stays current, with
   * the body's own tests, and the summary does not get them.
   */
  lemma DescribeEscapes(st: State, title: string, before: seq<Step>, e: Thrown, rest: seq<Step>)
    requires Nullish(e) && Clean(before)
    requires Run(State(st.summary, Some(Block(title, Zero))), before).1.None?
    ensures var s := Run(State(st.summary, Some(Block(title, Zero))), before).0;
      DescribeSpec(st, title, before + [Raise(e)] + rest) == (State(s.summary, Some(Block(title, Own(before)))), Raised(TypeError))
  {
    var start := State(st.summary, Some(Block(title, Zero)));
    RunStopsAtRaise(start, before, e, rest);
    RunOwnCounts(start, before);
    PlusZero(Own(before));
  }

  // ---------------------------------------------------------------------
  // The harness

  class TestRunner {
    /** `__TEST_SUMMARY`. */
    var summary: Counters
    /** `__CURRENT_DESCRIBE`; None is `null`. */
    var current: Option<Block>

    function Snapshot(): State
      reads this
    {
      State(summary, current)
    }

    predicate Valid()
      reads this
    {
      StateBalanced(Snapshot())
    }

    /** The state when the script is loaded. */
    constructor()
      ensures Snapshot() == State(Zero, None) && Valid()
    {
      summary := Zero;
      current := None;
    }

    /** `it(title, fn)`, for a `fn` that returns (`throws` is None) or throws. */
    method It(title: string, throws: Option<Thrown>) returns (r: Outcome)
      modifies this
      ensures (Snapshot(), r) == ItSpec(old(Snapshot()), throws)
      ensures old(Valid()) && Continues(throws) ==> Valid()
    {
      ghost var st0 := Snapshot();
      if Valid() && Continues(throws) {
        ItBalanced(st0, throws);
      }
      if current.None? {
        return Raised(Error(OutsideDescribeMessage));
      }
      var block := current.value;
      var c := block.counts;
      c := c.(total := c.total + 1);
      current := Some(block.(counts := c));
      r := Done;
      if throws.None? {
        current := Some(block.(counts := c.(passed := c.passed + 1)));
      } else if Nullish(throws.value) {
        // `e.message` on null or undefined
        r := Raised(TypeError);
      } else {
        current := Some(block.(counts := c.(failed := c.failed + 1)));
      }
    }

    /** `describe(title, fn, hideSummary)`, for a `fn` that makes the calls `body`. */
    method Describe(title: string, body: seq<Step>, hideSummary: bool) returns (r: Outcome)
      modifies this
      ensures (Snapshot(), r) == DescribeSpec(old(Snapshot()), title, body)
      ensures old(Valid()) && Clean(body) ==> Valid()
      decreases body, 1
    {
      ghost var st0 := Snapshot();
      if Valid() && Clean(body) {
        DescribeBalanced(st0, title, body);
      }
      var prev := current;
      current := Some(Block(title, Zero));
      var escaped := RunBody(body);
      if escaped.Some? && Nullish(escaped.value) {
        // `e.message` on null or undefined
        return Raised(TypeError);
      }
      if current.None? {
        return Raised(TypeError);
      }
      summary := Plus(summary, current.value.counts);
      current := prev;
      r := Done;
    }

    /** The body of a `describe`: its calls in order, until one throws. */
    method RunBody(steps: seq<Step>) returns (escaped: Option<Thrown>)
      modifies this
      ensures (Snapshot(), escaped) == Run(old(Snapshot()), steps)
      decreases steps, 0
    {
      var i := 0;
      while i < |steps|
        invariant 0 <= i <= |steps|
        invariant Run(old(Snapshot()), steps) == Run(Snapshot(), steps[i..])
      {
        assert steps[i..][0] == steps[i] && steps[i..][1..] == steps[i + 1..];
        var step := steps[i];
        if step.Raise? {
          return Some(step.thrown);
        } else if step.RunIt? {
          var r := It(step.title, step.throws);
          if r.Raised? {
            return Some(ErrorObject(r.error));
          }
        } else {
          var r := Describe(step.title, step.body, step.hideSummary);
          if r.Raised? {
            return Some(ErrorObject(r.error));
          }
        }
        i := i + 1;
      }
      assert steps[i..] == [];
      escaped := None;
    }
  }

  // ---------------------------------------------------------------------
  // The assertions

  /** `msg || default`: a missing or empty message gives the default. */
  function MessageOr(msg: Option<string>, default: string): (m: string)
    ensures m == default || (msg.Some? && m == msg.value && m != "")
  {
    if msg.Some? && msg.value != "" then msg.value else default
  }

  /** `assertTrue(condition, msg)`. */
  function AssertTrue(condition: Value, msg: Option<string>): (r: Outcome)
    ensures r.Raised? <==> !Truthy(condition)
    ensures r.Raised? ==> r.error == Error(MessageOr(msg, TrueMessage))
  {
    if !Truthy(condition) then Raised(Error(MessageOr(msg, TrueMessage))) else Done
  }

  /** `assertFalse(condition, msg)`. */
  function AssertFalse(condition: Value, msg: Option<string>): (r: Outcome)
    ensures r.Raised? <==> Truthy(condition)
    ensures r.Raised? ==> r.error == Error(MessageOr(msg, FalseMessage))
  {
    if Truthy(condition) then Raised(Error(MessageOr(msg, FalseMessage))) else Done
  }

  /** The expected message of `assertFunctionParams`: a regular expression (its `test`) or a text to look for. */
  datatype Expected = Pattern(test: string -> bool) | Text(s: string)

  /**
   * `m.includes(s)`: a text contains `s`, an array holds it; any other
   * value has no `includes` to call.
   */
  function Includes(m: Value, s: string): (r: Result<bool>)
    ensures r.Throw? <==> !(m.Str? || m.Arr?)
    ensures r.Throw? ==> r.error == TypeError
    ensures m.Str? ==> r == Ok(JsText.Contains(m.s, s))
    ensures m.Arr? ==> r == Ok(Str(s) in m.elems)
  {
    match m
    case Str(t) => Ok(JsText.Contains(t, s))
    case Arr(elems) => Ok(Str(s) in elems)
    case _ => Throw(TypeError)
  }

  /**
   * `!message || (message instanceof RegExp ? message.test(e.message) : e.message.includes(message))`,
   * which itself throws when `e.message` cannot be read or has no `includes`.
   */
  function MessageAccepted(host: Host, message: Option<Expected>, t: Thrown): (r: Result<bool>)
    ensures message.None? || message == Some(Text("")) ==> r == Ok(true)
    ensures r.Throw? ==> r.error == TypeError
    ensures t.ErrorObject? ==> r.Ok?
    ensures t.ErrorObject? && message.Some? && message.value.Text? ==>
      r == Ok(message.value.s == "" || JsText.Contains(Message(host, t.error), message.value.s))
    ensures t.ErrorObject? && message.Some? && message.value.Pattern? ==>
      r == Ok(message.value.test(Message(host, t.error)))
  {
    match message
    case None => Ok(true)
    case Some(Text(s)) =>
      if s == "" then Ok(true)
      else
        var m := MessageOf(host, t);
        if m.Throw? then Throw(m.error) else Includes(m.value, s)
    case Some(Pattern(test)) =>
      var m := MessageOf(host, t);
      if m.Throw? then Throw(m.error) else Ok(test(JsCoerce.ToJsString(host, m.value)))
  }

  /** What `fn(...args)` did: returned a value or threw one. */
  datatype Call = Returned(value: Value) | Threw(thrown: Thrown)

  /**
   * `assertFunctionParams(fn, args, shouldThrow, message)`, where `call`
   * is what `fn(...args)` did. It returns the call's result (undefined
   * when the expected exception came), or throws: the mismatch error, or
   * the TypeError raised while reading the caught value's message.
   */
  function AssertFunctionParams(host: Host, call: Call, shouldThrow: bool, message: Option<Expected>): (r: Result<Value>)
    ensures r.Ok? <==> (call.Returned? && !shouldThrow) || (call.Threw? && shouldThrow && MessageAccepted(host, message, call.thrown) == Ok(true))
    ensures r.Ok? && call.Returned? ==> r.value == call.value
    ensures r.Ok? && call.Threw? ==> r.value == Undefined
    ensures r.Throw? && (call.Returned? || !shouldThrow || MessageAccepted(host, message, call.thrown).Ok?) ==>
      r.error == Error(if shouldThrow then ExpectedThrowMessage else UnexpectedThrowMessage)
    ensures call.Threw? && shouldThrow && MessageAccepted(host, message, call.thrown).Throw? ==> r == Throw(TypeError)
  {
    match call
    case Returned(v) => if shouldThrow then Throw(Error(ExpectedThrowMessage)) else Ok(v)
    case Threw(t) =>
      if !shouldThrow then Throw(Error(UnexpectedThrowMessage))
      else
        match MessageAccepted(host, message, t)
        case Throw(e) => Throw(e)
        case Ok(accepted) => if accepted then Ok(Undefined) else Throw(Error(ExpectedThrowMessage))
  }

  /**
   * A thrown primitive, or an object without a `message`, checked against
   * a text: `e.message` is undefined (or cannot be read), so the check
   * throws a TypeError rather than the mismatch error.
   */
  lemma AssertFunctionParamsUnreadableMessage(host: Host, v: Value, s: string)
    requires s != "" && (!v.Obj? || "message" !in v.props)
    ensures AssertFunctionParams(host, Threw(NonError(v)), true, Some(Text(s))) == Throw(TypeError)
  {
  }
}
