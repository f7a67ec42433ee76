/** The component chain of the fingerprint library.

    `get` walks a list of components by continuations: a component may answer at once, answer later, throw, or ask for a
    pause first.  At any moment at most one continuation is waiting, as a timer or as the answer of a component. */
module Fingerprint {

  // How getData behaves: it calls `done` once, before or after returning, or throws without having called it.
  datatype Behaviour = AnswersNow(value: string) | AnswersLater(value: string) | ThrowsError(error: string)

  datatype Component = Component(key: string, pauseBefore: bool, behaviour: Behaviour)

  datatype Entry = Entry(key: string, value: string)

  // The options of a run: excluded keys, and the preprocessor (the identity when none is given).
  datatype Options = Options(excludes: set<string>, preprocessor: (string, string) -> string)

  // What is waiting: nothing, the timer of a pause, or the answer of a component.
  datatype Waiting = Nothing | Timer | Answer(key: string, value: string)

  // i is the index of the component last taken up, data the entries so far, results the calls of the callback.
  datatype State = State(i: int, data: seq<Entry>, waiting: Waiting, results: seq<seq<Entry>>)

  function EntryOf(o: Options, key: string, value: string): Entry
  {
    Entry(key, o.preprocessor(key, value))
  }

  // The value or error text a component yields in the end.
  function Outcome(c: Component): string
  {
    match c.behaviour
    case AnswersNow(v) => v
    case AnswersLater(v) => v
    case ThrowsError(e) => e
  }

  // The promised result: one entry for each component that is not excluded, in the order of the list.
  function Expected(components: seq<Component>, o: Options): seq<Entry>
  {
    if components == [] then []
    else
      (if components[0].key in o.excludes then [] else [EntryOf(o, components[0].key, Outcome(components[0]))])
      + Expected(components[1..], o)
  }

  lemma {:induction false} ExpectedInParts(a: seq<Component>, b: seq<Component>, o: Options)
    ensures Expected(a + b, o) == Expected(a, o) + Expected(b, o)
  {
    if a == [] {
      assert a + b == b;
    } else {
      assert (a + b)[1..] == a[1..] + b;
      ExpectedInParts(a[1..], b, o);
    }
  }

  /** Where a component is found in the result: behind the entries of those in front of it, under its key, with the
      preprocessed value that it answered, now or later, or the text of the error it threw.  Excluded ones are not. */
  lemma EntryInResult(a: seq<Component>, c: Component, b: seq<Component>, o: Options)
    ensures c.key in o.excludes ==> Expected(a + [c] + b, o) == Expected(a + b, o)
    ensures c.key !in o.excludes ==>
      var k, result := |Expected(a, o)|, Expected(a + [c] + b, o);
      && k < |result| && result[..k] == Expected(a, o) && result[k + 1..] == Expected(b, o)
      && result[k].key == c.key
      && (forall v :: c.behaviour == AnswersNow(v) || c.behaviour == AnswersLater(v) ==>
            result[k].value == o.preprocessor(c.key, v))
      && forall e :: c.behaviour == ThrowsError(e) ==> result[k].value == o.preprocessor(c.key, e)
  {
    ExpectedInParts(a, [c] + b, o);
    assert a + [c] + b == a + ([c] + b);
    ExpectedInParts([c], b, o);
    ExpectedInParts(a, b, o);
    ExpectedOne(c, o);
    hide Expected;
    if c.key !in o.excludes {
      var x, e, y := Expected(a, o), Expected([c], o), Expected(b, o);
      Between(x, e, y);
      assert Expected(a + [c] + b, o) == x + (e + y);
    }
  }

  lemma ExpectedOne(c: Component, o: Options)
    ensures Expected([c], o) == if c.key in o.excludes then [] else [EntryOf(o, c.key, Outcome(c))]
  {
    assert [c][1..] == [];
  }

  lemma Between(x: seq<Entry>, e: seq<Entry>, y: seq<Entry>)
    requires |e| == 1
    ensures var r := x + (e + y); |x| < |r| && r[..|x|] == x && r[|x|] == e[0] && r[|x| + 1..] == y
  {
  }

  // What the entries become if the chain goes on at component i.
  function Completed(components: seq<Component>, o: Options, i: nat, data: seq<Entry>): seq<Entry>
    requires i <= |components|
  {
    data + Expected(components[i..], o)
  }

  // What component i contributes to the result.
  lemma Unfold(components: seq<Component>, o: Options, i: nat, data: seq<Entry>)
    requires i <= |components|
    ensures i == |components| ==> Completed(components, o, i, data) == data
    ensures i < |components| ==>
      var c := components[i];
      Completed(components, o, i, data) == Completed(components, o, i + 1,
        if c.key in o.excludes then data else data + [EntryOf(o, c.key, Outcome(c))])
  {
    if i < |components| {
      var rest := components[i..];
      assert rest[0] == components[i] && rest[1..] == components[i + 1..];
    }
  }

  lemma NothingYet(components: seq<Component>, o: Options)
    ensures Completed(components, o, 0, []) == Expected(components, o)
  {
    assert components[0..] == components;
  }

  // The events that a component takes: a timer for its pause and a late answer.
  function EventsOf(c: Component, o: Options): nat
  {
    if c.key in o.excludes then 0
    else (if c.pauseBefore then 1 else 0) + if c.behaviour.AnswersLater? then 1 else 0
  }

  function Events(components: seq<Component>, o: Options): nat
  {
    if components == [] then 0 else EventsOf(components[0], o) + Events(components[1..], o)
  }

  lemma UnfoldEvents(components: seq<Component>, o: Options, i: nat)
    requires i <= |components|
    ensures Events(components[i..], o)
      == if i < |components| then EventsOf(components[i], o) + Events(components[i + 1..], o) else 0
  {
    if i < |components| {
      assert components[i..][1..] == components[i + 1..];
    }
  }

  // The components that are not excluded and ask for a pause, and those that answer later.
  function Pausing(components: seq<Component>, o: Options): set<int>
  {
    set i | 0 <= i < |components| && components[i].key !in o.excludes && components[i].pauseBefore
  }

  function Late(components: seq<Component>, o: Options): set<int>
  {
    set i | 0 <= i < |components| && components[i].key !in o.excludes && components[i].behaviour.AnswersLater?
  }

  lemma {:induction false} EventsInParts(a: seq<Component>, c: Component, o: Options)
    ensures Events(a + [c], o) == Events(a, o) + EventsOf(c, o)
  {
    if a == [] {
      assert a + [c] == [c] && [c][1..] == [];
    } else {
      assert (a + [c])[1..] == a[1..] + [c];
      EventsInParts(a[1..], c, o);
    }
  }

  lemma PartsGrow(a: seq<Component>, c: Component, o: Options)
    ensures var n := |a|;
      && n !in Pausing(a, o) && n !in Late(a, o)
      && Pausing(a + [c], o) == Pausing(a, o) + (if c.key !in o.excludes && c.pauseBefore then {n} else {})
      && Late(a + [c], o)
         == Late(a, o) + (if c.key !in o.excludes && c.behaviour.AnswersLater? then {n} else {})
  {
  }

  /** The events are one for each pause and one for each late answer of the components that are not excluded. */
  lemma {:induction false} EventsAreCounted(components: seq<Component>, o: Options)
    ensures Events(components, o) == |Pausing(components, o)| + |Late(components, o)|
  {
    if components == [] {
      assert Pausing(components, o) == {} && Late(components, o) == {};
    } else {
      hide Events, Pausing, Late;
      var n := |components| - 1;
      var a, c := components[..n], components[n];
      assert components == a + [c];
      EventsInParts(a, c, o);
      EventsAreCounted(a, o);
      PartsGrow(a, c, o);
    }
  }

  lemma {:induction false} EventsBound(components: seq<Component>, o: Options)
    ensures Events(components, o) <= 2 * |components|
  {
    if components != [] { EventsBound(components[1..], o); }
  }

  // Whether the next component is one that waits for a pause.
  predicate Pauses(components: seq<Component>, o: Options, i: int)
    requires -1 <= i < |components| - 1
  {
    components[i + 1].key !in o.excludes && components[i + 1].pauseBefore
  }

  /** Between two events: either the callback has run once with the promised entries and nothing is left to happen, or
      exactly one continuation waits, the entries so far are those of the components before it, and the callback has not
      run. */
  ghost predicate Inv(components: seq<Component>, o: Options, s: State)
  {
    match s.waiting
    case Nothing => s.results == [Expected(components, o)]
    case Timer =>
      && -1 <= s.i < |components| - 1 && s.results == [] && Pauses(components, o, s.i)
      && Completed(components, o, s.i + 1, s.data) == Expected(components, o)
    case Answer(key, value) =>
      && 0 <= s.i < |components| && s.results == []
      && Completed(components, o, s.i + 1, s.data + [EntryOf(o, key, value)]) == Expected(components, o)
  }

  // The events still to come.
  ghost function Left(components: seq<Component>, o: Options, s: State): int
    requires Inv(components, o, s)
  {
    match s.waiting
    case Nothing => 0
    case Timer => Events(components[s.i + 1..], o)
    case Answer(_, _) => 1 + Events(components[s.i + 1..], o)
  }

  // ---------------------------------------------------------------- the code

  class Chain {
    const components: seq<Component>
    const options: Options
    var i: int
    var data: seq<Entry>
    var waiting: Waiting
    var results: seq<seq<Entry>>

    ghost function Contents(): State
      reads this
    {
      State(i, data, waiting, results)
    }

    ghost predicate Valid()
      reads this
    {
      Inv(components, options, Contents())
    }

    // Fingerprint2.get, up to the first time control returns to the browser.
    constructor (components: seq<Component>, options: Options)
      ensures this.components == components && this.options == options && Valid()
      ensures Left(components, options, Contents()) == Events(components, options)
    {
      this.components, this.options := components, options;
      i, data, waiting, results := -1, [], Nothing, [];
      new;
      assert components[0..] == components;
      NothingYet(components, options);
      ChainComponents(false);
    }

    method AddPreprocessedComponent(key: string, value: string)
      modifies this`data
      ensures data == old(data) + [EntryOf(options, key, value)]
    {
      data := data + [Entry(key, options.preprocessor(key, value))];
    }

    /** chainComponents: takes up the next component and goes on until something has to wait or the list ends. */
    method ChainComponents(alreadyWaited: bool)
      requires -1 <= i < |components| && waiting == Nothing && results == []
      requires Completed(components, options, i + 1, data) == Expected(components, options)
      requires alreadyWaited ==> i < |components| - 1 && Pauses(components, options, i)
      modifies this
      ensures Valid()
      ensures Left(components, options, Contents())
        == Events(components[old(i) + 1..], options) - if alreadyWaited then 1 else 0
      decreases |components| - i
    {
      hide Expected, Completed, Events;
      i := i + 1;
      Unfold(components, options, i, data);
      UnfoldEvents(components, options, i);
      if i >= |components| {
        results := results + [data];
        return;
      }
      var component := components[i];
      if component.key in options.excludes {
        ChainComponents(false);
        return;
      }
      if !alreadyWaited && component.pauseBefore {
        i := i - 1;
        waiting := Timer;
        return;
      }
      match component.behaviour {
        case AnswersNow(value) =>
          AddPreprocessedComponent(component.key, value);
          ChainComponents(false);
        case AnswersLater(value) =>
          waiting := Answer(component.key, value);
        case ThrowsError(error) =>
          AddPreprocessedComponent(component.key, error);
          ChainComponents(false);
      }
    }

    /** The browser runs the continuation that waits; one event less is left. */
    method Resume()
      requires Valid() && waiting != Nothing
      modifies this
      ensures Valid()
      ensures Left(components, options, Contents()) == old(Left(components, options, Contents())) - 1
    {
      hide Expected, Completed, Events;
      match waiting {
        case Timer =>
          waiting := Nothing;
          ChainComponents(true);
        case Answer(key, value) =>
          waiting := Nothing;
          AddPreprocessedComponent(key, value);
          ChainComponents(false);
      }
    }
  }

  /** For every list of components and whatever pauses, late answers and errors occur in it: after exactly one event for
      each pause and each late answer of a component that is not excluded, the callback has run exactly once, with one
      entry per such component, in list order. */
  method Get(components: seq<Component>, options: Options) returns (results: seq<seq<Entry>>, events: nat)
    ensures results == [Expected(components, options)]
    ensures events == Events(components, options) <= 2 * |components|
  {
    hide Expected, Events;
    EventsBound(components, options);
    var chain := new Chain(components, options);
    events := 0;
    while chain.waiting != Nothing
      invariant chain.Valid() && fresh(chain) && chain.components == components && chain.options == options
      invariant Left(components, options, chain.Contents()) + events == Events(components, options)
      decreases Left(components, options, chain.Contents())
    {
      chain.Resume();
      events := events + 1;
    }
    results := chain.results;
  }
}
