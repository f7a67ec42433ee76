/** What a second run of save_consumers with the same inputs does. */
module KongReruns {
  import opened KongConsumers

  predicate Wants(input: Input, username: string) {
    input.state == "present" && input.username == username
  }

  // No username is wanted both present and absent, and all inputs that want it present list the same groups.
  ghost predicate Steady(inputs: seq<Input>) {
    forall k, l :: 0 <= k < |inputs| && 0 <= l < |inputs| && Wants(inputs[k], inputs[l].username) ==>
      && inputs[l].state != "absent"
      && (inputs[l].state == "present" ==> Listed(inputs[k].groups) == Listed(inputs[l].groups))
  }

  // ---------------------------------------------------------------- repeated PATCHes of one credential

  // A credential after the PATCHes of those of the first n inputs that want the consumer with its algorithm.
  function Repatched(inputs: seq<Input>, u: string, n: nat, c: Credential): (r: Credential)
    requires n <= |inputs|
    ensures r.algorithm == c.algorithm && r.id == c.id
  {
    if n == 0 then c
    else
      var d := Repatched(inputs, u, n - 1, c);
      if Wants(inputs[n - 1], u) && Algorithm(inputs[n - 1]) == c.algorithm then Patched(d, inputs[n - 1]) else d
  }

  // An attribute is either left alone or set to one value, whatever it was.
  lemma {:induction false} RepatchedFields(inputs: seq<Input>, u: string, n: nat, c: Credential, d: Credential)
    requires n <= |inputs| && c.algorithm == d.algorithm
    ensures var r, s := Repatched(inputs, u, n, c), Repatched(inputs, u, n, d);
      && ((r.key == c.key && s.key == d.key) || r.key == s.key)
      && ((r.publicKey == c.publicKey && s.publicKey == d.publicKey) || r.publicKey == s.publicKey)
  {
    if n > 0 { RepatchedFields(inputs, u, n - 1, c, d); }
  }

  // The PATCHes of no input leave a credential as it is.
  lemma {:induction false} RepatchedNone(inputs: seq<Input>, u: string, n: nat, c: Credential)
    requires n <= |inputs|
    requires forall l :: 0 <= l < n && Wants(inputs[l], u) ==> Algorithm(inputs[l]) != c.algorithm
    ensures Repatched(inputs, u, n, c) == c
  {
    if n > 0 { RepatchedNone(inputs, u, n - 1, c); }
  }

  /** A credential that the PATCHes of the first inputs leave as it is stays so after one more PATCH, of the next. */
  lemma RepatchedAgain(inputs: seq<Input>, u: string, n: nat, c: Credential)
    requires n < |inputs| && Wants(inputs[n], u) && Algorithm(inputs[n]) == c.algorithm
    requires Repatched(inputs, u, n, c) == c
    ensures var d := Patched(c, inputs[n]); Repatched(inputs, u, n + 1, d) == d
  {
    RepatchedFields(inputs, u, n, c, Patched(c, inputs[n]));
  }

  // ---------------------------------------------------------------- the credentials of a consumer

  predicate IsFirst(cs: seq<Credential>, j: nat)
    requires j < |cs|
  {
    forall x :: 0 <= x < j ==> cs[x].algorithm != cs[j].algorithm
  }

  // There is a credential for each of the first n inputs, and PATCHing them all once more would change nothing.
  ghost predicate Stable(cs: seq<Credential>, inputs: seq<Input>, u: string, n: nat)
    requires n <= |inputs|
  {
    && (forall l :: 0 <= l < n && Wants(inputs[l], u) ==> HasAlgorithm(cs, Algorithm(inputs[l])))
    && forall j :: 0 <= j < |cs| && IsFirst(cs, j) ==> Repatched(inputs, u, n, cs[j]) == cs[j]
  }

  lemma StableSkip(cs: seq<Credential>, inputs: seq<Input>, u: string, n: nat)
    requires n < |inputs| && !Wants(inputs[n], u) && Stable(cs, inputs, u, n)
    ensures Stable(cs, inputs, u, n + 1)
  {
    hide HasAlgorithm;
  }

  lemma FirstStays(cs: seq<Credential>, now: seq<Credential>, j: nat)
    requires j < |cs| <= |now| && forall x :: 0 <= x < |cs| ==> now[x].algorithm == cs[x].algorithm
    ensures IsFirst(now, j) <==> IsFirst(cs, j)
  {
  }

  lemma StablePatched(cs: seq<Credential>, inputs: seq<Input>, u: string, n: nat, k: nat)
    requires n < |inputs| && Wants(inputs[n], u) && Stable(cs, inputs, u, n)
    requires k < |cs| && cs[k].algorithm == Algorithm(inputs[n]) && IsFirst(cs, k)
    ensures Stable(cs[k := Patched(cs[k], inputs[n])], inputs, u, n + 1)
  {
    var now := cs[k := Patched(cs[k], inputs[n])];
    assert forall x :: 0 <= x < |cs| ==> now[x].algorithm == cs[x].algorithm;
    hide HasAlgorithm, First, Patched;
    assert cs[k] in cs;
    forall l | 0 <= l < n + 1 && Wants(inputs[l], u) ensures HasAlgorithm(now, Algorithm(inputs[l])) {
      SameAlgorithms(cs, now, Algorithm(inputs[l]));
      if l == n { FirstIs(cs, Algorithm(inputs[n]), k); }
    }
    forall j | 0 <= j < |cs| && IsFirst(now, j) ensures Repatched(inputs, u, n + 1, now[j]) == now[j] {
      FirstStays(cs, now, j);
      if j == k {
        RepatchedAgain(inputs, u, n, cs[k]);
      } else {
        assert cs[j].algorithm != cs[k].algorithm;
      }
    }
  }

  lemma StableCreated(cs: seq<Credential>, inputs: seq<Input>, u: string, n: nat, c: Credential)
    requires n < |inputs| && Wants(inputs[n], u) && Stable(cs, inputs, u, n)
    requires !HasAlgorithm(cs, Algorithm(inputs[n])) && Suits(c, inputs[n])
    ensures Stable(cs + [c], inputs, u, n + 1)
  {
    var now := cs + [c];
    assert now[|cs|] == c;
    forall l | 0 <= l < n + 1 && Wants(inputs[l], u) ensures HasAlgorithm(now, Algorithm(inputs[l])) {
      if l < n {
        assert HasAlgorithm(cs, Algorithm(inputs[l]));
      }
    }
    assert forall j :: 0 <= j < |cs| ==> cs[j].algorithm != Algorithm(inputs[n]);
    assert forall l :: 0 <= l < n && Wants(inputs[l], u) ==> Algorithm(inputs[l]) != c.algorithm;
    hide HasAlgorithm, First;
    forall j | 0 <= j < |now| && IsFirst(now, j) ensures Repatched(inputs, u, n + 1, now[j]) == now[j] {
      if j < |cs| {
        FirstStays(cs, now, j);
      } else {
        RepatchedNone(inputs, u, n, c);
      }
    }
  }

  lemma SameAlgorithms(cs: seq<Credential>, now: seq<Credential>, algorithm: string)
    requires |now| == |cs| && forall j :: 0 <= j < |cs| ==> now[j].algorithm == cs[j].algorithm
    ensures HasAlgorithm(now, algorithm) <==> HasAlgorithm(cs, algorithm)
    ensures HasAlgorithm(cs, algorithm) ==> First(now, algorithm) == First(cs, algorithm)
  {
    if HasAlgorithm(cs, algorithm) {
      FirstIs(now, algorithm, First(cs, algorithm));
    }
    if HasAlgorithm(now, algorithm) {
      FirstIs(cs, algorithm, First(now, algorithm));
    }
  }

  // The turn of one input keeps the credentials stable.
  lemma StableTurn(before: Consumer, now: Consumer, inputs: seq<Input>, n: nat)
    requires n < |inputs| && inputs[n].state == "present" && Saved(before, now, inputs[n])
    requires Stable(before.credentials, inputs, inputs[n].username, n)
    ensures Stable(now.credentials, inputs, inputs[n].username, n + 1)
  {
    hide Stable, Listed;
    var cs, algorithm := before.credentials, Algorithm(inputs[n]);
    var c :| Suits(c, inputs[n]) && now == WithCredential(WithGroups(before, Listed(inputs[n].groups)), inputs[n], c);
    if HasAlgorithm(cs, algorithm) {
      StablePatched(cs, inputs, inputs[n].username, n, First(cs, algorithm));
    } else {
      StableCreated(cs, inputs, inputs[n].username, n, c);
    }
  }

  /** A run leaves the credentials of every consumer as a second round of PATCHes would leave them. */
  lemma {:induction false} TraceStable(states: seq<Table>, inputs: seq<Input>, n: nat, u: string)
    requires n <= |inputs| && |states| == |inputs| + 1 && Trace(states, inputs, |inputs|)
    ensures Stable(Existing(states[n], u).credentials, inputs, u, n)
  {
    if n > 0 {
      var m := n - 1;
      TraceStable(states, inputs, m, u);
      hide Stable, Saved;
      TurnOf(states, inputs, m);
      if Wants(inputs[m], u) {
        StableTurn(Existing(states[m], u), states[n][u], inputs, m);
      } else {
        assert inputs[m].state == "present" ==> Same(states[m], states[n], u);
        StableSkip(Existing(states[m], u).credentials, inputs, u, m);
      }
    }
  }

  lemma TurnOf(states: seq<Table>, inputs: seq<Input>, k: nat)
    requires k < |inputs| && |states| == |inputs| + 1 && Trace(states, inputs, |inputs|)
    ensures inputs[k].state == "present" ==> Stepped(states[k], states[k + 1], inputs[k])
    ensures inputs[k].state != "present" ==> states[k + 1] == states[k]
  {
  }

  // ---------------------------------------------------------------- a run of PATCHes only

  // The first credential for each algorithm is PATCHed by the first n inputs, nothing else changes.
  function AllRepatched(inputs: seq<Input>, u: string, n: nat, consumer: Consumer): Consumer
    requires n <= |inputs|
  {
    var cs := consumer.credentials;
    WithCredentials(consumer,
                    seq(|cs|, j requires 0 <= j < |cs| =>
                      if IsFirst(cs, j) then Repatched(inputs, u, n, cs[j]) else cs[j]))
  }

  lemma AllRepatchedSkip(inputs: seq<Input>, u: string, n: nat, consumer: Consumer)
    requires n < |inputs| && !Wants(inputs[n], u)
    ensures AllRepatched(inputs, u, n + 1, consumer) == AllRepatched(inputs, u, n, consumer)
  {
    assert AllRepatched(inputs, u, n + 1, consumer).credentials == AllRepatched(inputs, u, n, consumer).credentials;
  }

  // Of the first credentials for their algorithms, the next input PATCHes the one for its own.
  lemma {:induction false} RepatchedTurn(inputs: seq<Input>, n: nat, u: string, cs: seq<Credential>, k: nat, j: nat)
    requires n < |inputs| && Wants(inputs[n], u)
    requires k < |cs| && cs[k].algorithm == Algorithm(inputs[n]) && IsFirst(cs, k)
    requires j < |cs| && IsFirst(cs, j)
    ensures Repatched(inputs, u, n + 1, cs[j]) ==
            if j == k then Patched(Repatched(inputs, u, n, cs[j]), inputs[n]) else Repatched(inputs, u, n, cs[j])
  {
  }

  lemma AllRepatchedTurn(inputs: seq<Input>, n: nat, consumer: Consumer, now: Consumer)
    requires n < |inputs| && inputs[n].state == "present"
    requires var c := AllRepatched(inputs, inputs[n].username, n, consumer);
      && c.groups == Listed(inputs[n].groups)
      && HasAlgorithm(c.credentials, Algorithm(inputs[n]))
      && Saved(c, now, inputs[n])
    ensures now == AllRepatched(inputs, inputs[n].username, n + 1, consumer)
  {
    var u, algorithm, cs := inputs[n].username, Algorithm(inputs[n]), consumer.credentials;
    var c := AllRepatched(inputs, u, n, consumer);
    SameAlgorithms(cs, c.credentials, algorithm);
    var k := First(cs, algorithm);
    assert now == WithCredentials(c, c.credentials[k := Patched(c.credentials[k], inputs[n])]) && IsFirst(cs, k);
    hide Listed, Repatched, HasAlgorithm, First, Patched, IsFirst, Saved, Algorithm;
    var p := n + 1;
    forall j | 0 <= j < |cs| ensures now.credentials[j] == AllRepatched(inputs, u, p, consumer).credentials[j] {
      if IsFirst(cs, j) { RepatchedTurn(inputs, n, u, cs, k, j); }
    }
    assert now.credentials == AllRepatched(inputs, u, p, consumer).credentials;
  }

  /** A run that finds every consumer with its groups and a credential only PATCHes credentials. */
  lemma {:induction false} QuietTrace(states: seq<Table>, inputs: seq<Input>, n: nat, u: string)
    requires n <= |inputs| && |states| == |inputs| + 1 && Trace(states, inputs, |inputs|)
    requires QuietUpTo(states, inputs, n)
    ensures u in states[n] <==> u in states[0]
    ensures u in states[0] ==> states[n][u] == AllRepatched(inputs, u, n, states[0][u])
  {
    if n == 0 {
      if u in states[0] {
        assert AllRepatched(inputs, u, 0, states[0][u]).credentials == states[0][u].credentials;
      }
    } else {
      var m := n - 1;
      QuietTrace(states, inputs, m, u);
      hide Saved, AllRepatched;
      TurnOf(states, inputs, m);
      if Wants(inputs[m], u) {
        assert Quiet(states[m], inputs[m]);
        AllRepatchedTurn(inputs, m, states[0][u], states[n][u]);
      } else {
        assert inputs[m].state == "present" ==> Same(states[m], states[n], u);
        if u in states[0] { AllRepatchedSkip(inputs, u, m, states[0][u]); }
      }
    }
  }

  lemma StableStays(inputs: seq<Input>, u: string, consumer: Consumer)
    requires Stable(consumer.credentials, inputs, u, |inputs|)
    ensures AllRepatched(inputs, u, |inputs|, consumer) == consumer
  {
    assert AllRepatched(inputs, u, |inputs|, consumer).credentials == consumer.credentials;
  }

  // ---------------------------------------------------------------- a second run

  // The consumer of an input after a run.
  lemma AfterRun(before: Table, states: seq<Table>, inputs: seq<Input>, k: nat)
    requires k < |inputs| && Run(before, states, inputs)
    ensures var u, now := inputs[k].username, states[|inputs|];
      && (inputs[k].state == "present" ==> u in now && HasAlgorithm(now[u].credentials, Algorithm(inputs[k])))
      && (Steady(inputs) && inputs[k].state == "present" ==> now[u].groups == Listed(inputs[k].groups))
      && (Steady(inputs) && inputs[k].state == "absent" ==> u !in now)
  {
    hide HasAlgorithm, First, Suits, Listed, Trace, Cleared;
    var u, n := inputs[k].username, |inputs|;
    assert Settled(before, states[n], inputs, u, n, n);
    TraceStable(states, inputs, n, u);
    assert inputs[k].state == "present" ==> Wants(inputs[k], u);
    if inputs[k].state == "absent" { assert SomeAbsent(inputs, u, n); }
  }

  lemma NoneMissing(groups: seq<string>)
    ensures !TwiceMissing(groups, Listed(groups))
  {
  }

  /** Of inputs that fit together, a second run never meets a conflict. */
  lemma SteadyHasNoConflict(before: Table, states: seq<Table>, inputs: seq<Input>)
    requires Run(before, states, inputs) && Steady(inputs)
    ensures !SomeTwice(states[|inputs|], inputs, |inputs|)
  {
    hide Trace, Cleared, Settled, TwiceMissing, Listed;
    forall k: nat | k < |inputs| ensures !Twice(states[|inputs|], inputs, k) {
      AfterRun(before, states, inputs, k);
      if inputs[k].state == "present" {
        assert GroupsAt(states[|inputs|], inputs, k) == Listed(inputs[k].groups);
        NoneMissing(inputs[k].groups);
      }
    }
  }

  // A run that follows another one with the same inputs.
  ghost predicate Rerun(before: Table, states: seq<Table>, again: seq<Table>, inputs: seq<Input>) {
    && Run(before, states, inputs)
    && |again| == |inputs| + 1
    && Trace(again, inputs, |inputs|)
    && Cleared(states[|inputs|], again[0], inputs, |inputs|)
  }

  // The first loop finds nothing to delete.
  lemma NothingCleared(before: Table, states: seq<Table>, again: seq<Table>, inputs: seq<Input>)
    requires Rerun(before, states, again, inputs) && Steady(inputs)
    ensures again[0] == states[|inputs|]
  {
    hide Trace, Settled, Steady, Same;
    var now, n := states[|inputs|], |inputs|;
    forall u ensures Same(now, again[0], u) {
      if SomeAbsent(inputs, u, n) {
        var x :| 0 <= x < n && inputs[x].state == "absent" && inputs[x].username == u;
        AfterRun(before, states, inputs, x);
        OneGone(now, again[0], u);
      }
    }
    AllSame(now, again[0]);
  }

  lemma OneGone(before: Table, now: Table, u: string)
    requires u !in before && u !in now
    ensures Same(before, now, u)
  {
  }

  lemma AllSame(before: Table, now: Table)
    requires forall u :: Same(before, now, u)
    ensures now == before
  {
    forall u ensures u in now <==> u in before && (u in now ==> now[u] == before[u]) {
      assert Same(before, now, u);
    }
  }

  lemma {:induction false} SteadyIsQuiet(
    before: Table, states: seq<Table>, again: seq<Table>, inputs: seq<Input>, n: nat)
    requires n <= |inputs| && Rerun(before, states, again, inputs) && Steady(inputs)
    ensures QuietUpTo(again, inputs, n)
  {
    if n > 0 {
      var m := n - 1;
      SteadyIsQuiet(before, states, again, inputs, m);
      NothingCleared(before, states, again, inputs);
      hide Run, Trace, Cleared, Steady, HasAlgorithm, First, Listed;
      if inputs[m].state == "present" {
        AfterRun(before, states, inputs, m);
        QuietTrace(again, inputs, m, inputs[m].username);
        var consumer := again[0][inputs[m].username];
        SameAlgorithms(consumer.credentials, AllRepatched(inputs, inputs[m].username, m, consumer).credentials,
                       Algorithm(inputs[m]));
        assert Quiet(again[m], inputs[m]);
      }
    }
  }

  // All inputs that find their consumer with its groups list these groups.
  lemma QuietIsSteady(before: Table, states: seq<Table>, again: seq<Table>, inputs: seq<Input>)
    requires Rerun(before, states, again, inputs)
    requires again[0] == states[|inputs|] && QuietUpTo(again, inputs, |inputs|)
    ensures Steady(inputs)
  {
    hide Run, Trace, Listed, HasAlgorithm;
    forall k, l | 0 <= k < |inputs| && 0 <= l < |inputs| && Wants(inputs[k], inputs[l].username)
      ensures inputs[l].state != "absent"
      ensures inputs[l].state == "present" ==> Listed(inputs[k].groups) == Listed(inputs[l].groups)
    {
      var u := inputs[k].username;
      AfterRun(before, states, inputs, k);
      QuietTrace(again, inputs, k, u);
      QuietTrace(again, inputs, l, u);
      assert Quiet(again[k], inputs[k]);
      if inputs[l].state == "present" {
        assert Quiet(again[l], inputs[l]);
      }
    }
  }

  // The PATCHes of the second run leave every consumer as it was.
  lemma SteadyStays(before: Table, states: seq<Table>, again: seq<Table>, inputs: seq<Input>)
    requires Rerun(before, states, again, inputs) && Steady(inputs)
    ensures again[|inputs|] == states[|inputs|]
  {
    var now, n := states[|inputs|], |inputs|;
    SteadyIsQuiet(before, states, again, inputs, n);
    NothingCleared(before, states, again, inputs);
    hide Trace, Cleared, Settled, Steady, QuietUpTo, Stable, AllRepatched;
    forall u ensures Same(now, again[n], u) {
      QuietTrace(again, inputs, n, u);
      TraceStable(states, inputs, n, u);
      if u in now { StableStays(inputs, u, now[u]); }
    }
    hide Same;
    AllSame(now, again[n]);
  }

  /** save_consumers on a server that a run with the same inputs left: it ends and creates and deletes nothing, neither
      consumers nor groups nor credentials, if and only if no username is wanted both present and absent and all inputs
      that want one present list the same groups.  Then it also leaves every credential as it was, although the inputs
      of one username may PATCH it to different values in turn. */
  method SaveConsumersAgain(kong: Kong, inputs: seq<Input>, ghost before: Table, ghost states: seq<Table>)
    returns (r: Outcome)
    requires Run(before, states, inputs) && kong.consumers == states[|inputs|]
    modifies kong
    ensures old(kong.log) <= kong.log
    ensures r == Done && OnlyCredentialPatches(kong.log[|old(kong.log)|..]) <==> Steady(inputs)
    ensures Steady(inputs) ==> kong.consumers == old(kong.consumers)
  {
    hide *;
    ghost var again;
    r, again := SaveConsumers(kong, inputs);
    if Steady(inputs) {
      SteadyHasNoConflict(before, states, inputs);
      RunsAgain(before, states, again, inputs);
      NothingCleared(before, states, again, inputs);
      SteadyIsQuiet(before, states, again, inputs, |inputs|);
      SteadyStays(before, states, again, inputs);
    } else if r == Done && OnlyCredentialPatches(kong.log[|old(kong.log)|..]) {
      RunsAgain(before, states, again, inputs);
      QuietIsSteady(before, states, again, inputs);
    }
  }

  lemma RunsAgain(before: Table, states: seq<Table>, again: seq<Table>, inputs: seq<Input>)
    requires Run(before, states, inputs) && Run(states[|inputs|], again, inputs)
    ensures Rerun(before, states, again, inputs)
  {
  }

  /** Two lists of inputs with which every run after the first creates and deletes something. */
  lemma UnsteadyInputs()
    ensures var input := Input("portal", "present", ["admin"], None, None, None);
      && !Steady([input.(state := "absent"), input])
      && !Steady([input.(groups := []), input])
  {
    var input := Input("portal", "present", ["admin"], None, None, None);
    var both, groups := [input.(state := "absent"), input], [input.(groups := []), input];
    assert Wants(both[1], both[0].username) && both[0].state == "absent";
    assert Wants(groups[1], groups[0].username) && "admin" in Listed(groups[1].groups);
  }
}
