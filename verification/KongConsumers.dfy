/** Reconciling the consumers of a Kong server with a list of wanted ones: their existence, groups and credentials. */
module KongConsumers {

  datatype Option<T> = None | Some(value: T)

  // A JWT credential; publicKey is empty when there is none.
  datatype Credential = Credential(id: nat, algorithm: string, key: string, publicKey: string)

  datatype Consumer = Consumer(groups: set<string>, credentials: seq<Credential>)

  datatype Input = Input(username: string, state: string, groups: seq<string>,
                         algorithm: Option<string>, key: Option<string>, publicKey: Option<string>)

  datatype Request =
    | PostConsumer(username: string)
    | DeleteConsumer(username: string)
    | PostGroup(username: string, group: string)
    | DeleteGroup(username: string, group: string)
    | PostCredential(username: string)
    | PatchCredential(username: string, id: nat)

  datatype Outcome = Done | Conflict

  type Table = map<string, Consumer>

  function Default<T>(o: Option<T>, other: T): T {
    if o.Some? then o.value else other
  }

  function Algorithm(input: Input): string {
    Default(input.algorithm, "HS256")
  }

  // ---------------------------------------------------------------- credentials

  predicate HasAlgorithm(credentials: seq<Credential>, algorithm: string) {
    exists c :: c in credentials && c.algorithm == algorithm
  }

  // The index of the first credential for an algorithm.
  function First(credentials: seq<Credential>, algorithm: string): (k: nat)
    requires HasAlgorithm(credentials, algorithm)
    ensures k < |credentials| && credentials[k].algorithm == algorithm
    ensures forall j :: 0 <= j < k ==> credentials[j].algorithm != algorithm
  {
    if credentials[0].algorithm == algorithm then 0
    else
      assert credentials == [credentials[0]] + credentials[1..];
      1 + First(credentials[1..], algorithm)
  }

  lemma FirstIs(credentials: seq<Credential>, algorithm: string, k: nat)
    requires k < |credentials| && credentials[k].algorithm == algorithm
    requires forall j :: 0 <= j < k ==> credentials[j].algorithm != algorithm
    ensures HasAlgorithm(credentials, algorithm) && First(credentials, algorithm) == k
  {
    assert credentials[k] in credentials;
  }

  // A credential after a PATCH for an input.
  function Patched(c: Credential, input: Input): Credential {
    c.(key := Default(input.key, c.key), publicKey := Default(input.publicKey, c.publicKey))
  }

  // What the input says about a credential.
  predicate Suits(c: Credential, input: Input) {
    && c.algorithm == Algorithm(input)
    && (input.key.Some? ==> c.key == input.key.value)
    && (input.publicKey.Some? ==> c.publicKey == input.publicKey.value)
  }

  function Listed(groups: seq<string>): set<string> {
    set g | g in groups
  }

  // The consumer has exactly the listed groups, and its first credential for the algorithm is as listed.
  ghost predicate Meets(consumer: Consumer, input: Input) {
    && consumer.groups == Listed(input.groups)
    && HasAlgorithm(consumer.credentials, Algorithm(input))
    && Suits(consumer.credentials[First(consumer.credentials, Algorithm(input))], input)
  }

  // ---------------------------------------------------------------- the server

  function WithGroups(c: Consumer, groups: set<string>): Consumer {
    c.(groups := groups)
  }

  function WithCredentials(c: Consumer, credentials: seq<Credential>): Consumer {
    c.(credentials := credentials)
  }

  class Kong {
    var consumers: Table
    var nextId: nat
    // The requests received that may change something.
    var log: seq<Request>

    // GET /consumers/username
    method HasConsumer(username: string) returns (found: bool)
      ensures found <==> username in consumers
    {
      found := username in consumers;
    }

    // POST /consumers
    method AddConsumer(username: string) returns (ok: bool)
      modifies this
      ensures ok <==> username !in old(consumers)
      ensures nextId == old(nextId)
      ensures consumers == if ok then old(consumers)[username := Consumer({}, [])] else old(consumers)
      ensures log == if ok then old(log) + [PostConsumer(username)] else old(log)
    {
      ok := username !in consumers;
      if ok {
        consumers := consumers[username := Consumer({}, [])];
        log := log + [PostConsumer(username)];
      }
    }

    // DELETE /consumers/username
    method RemoveConsumer(username: string)
      requires username in consumers
      modifies this
      ensures nextId == old(nextId)
      ensures consumers == old(consumers) - {username} && log == old(log) + [DeleteConsumer(username)]
    {
      consumers := consumers - {username};
      log := log + [DeleteConsumer(username)];
    }

    // GET /consumers/username/acls
    method GetGroups(username: string) returns (groups: seq<string>)
      requires username in consumers
      ensures Listed(groups) == consumers[username].groups
      ensures forall a, b :: 0 <= a < b < |groups| ==> groups[a] != groups[b]
    {
      groups := [];
      var left := consumers[username].groups;
      while left != {}
        invariant left <= consumers[username].groups
        invariant Listed(groups) == consumers[username].groups - left
        invariant forall a, b :: 0 <= a < b < |groups| ==> groups[a] != groups[b]
        decreases left
      {
        SomeGroup(left);
        var g :| g in left;
        ListedMore(groups, g);
        assert g !in Listed(groups);
        groups := groups + [g];
        left := left - {g};
      }
    }

    // POST /consumers/username/acls
    method AddGroup(username: string, group: string) returns (ok: bool)
      requires username in consumers
      modifies this
      ensures ok <==> group !in old(consumers)[username].groups
      ensures nextId == old(nextId)
      ensures consumers ==
        old(consumers)[username := WithGroups(old(consumers)[username], old(consumers)[username].groups + {group})]
      ensures log == if ok then old(log) + [PostGroup(username, group)] else old(log)
    {
      var c := consumers[username];
      ok := group !in c.groups;
      consumers := consumers[username := WithGroups(c, c.groups + {group})];
      if ok {
        log := log + [PostGroup(username, group)];
      }
    }

    // DELETE /consumers/username/acls/group
    method RemoveGroup(username: string, group: string)
      requires username in consumers && group in consumers[username].groups
      modifies this
      ensures nextId == old(nextId)
      ensures consumers ==
        old(consumers)[username := WithGroups(old(consumers)[username], old(consumers)[username].groups - {group})]
      ensures log == old(log) + [DeleteGroup(username, group)]
    {
      var c := consumers[username];
      consumers := consumers[username := WithGroups(c, c.groups - {group})];
      log := log + [DeleteGroup(username, group)];
    }

    // POST /consumers/username/jwt
    method AddCredential(username: string, algorithm: string, key: Option<string>, publicKey: Option<string>)
      returns (c: Credential)
      requires username in consumers
      modifies this
      ensures c.algorithm == algorithm && (key.Some? ==> c.key == key.value) && c.publicKey == Default(publicKey, "")
      ensures var consumer := old(consumers)[username];
        consumers == old(consumers)[username := WithCredentials(consumer, consumer.credentials + [c])]
      ensures log == old(log) + [PostCredential(username)]
    {
      var generated: string := *;
      c := Credential(nextId, algorithm, Default(key, generated), Default(publicKey, ""));
      nextId := nextId + 1;
      consumers := consumers[username := WithCredentials(consumers[username], consumers[username].credentials + [c])];
      log := log + [PostCredential(username)];
    }

    // PATCH /consumers/username/jwt/id, the id being that of the k-th credential
    method ChangeCredential(username: string, k: nat, key: string, publicKey: string) returns (c: Credential)
      requires username in consumers && k < |consumers[username].credentials|
      modifies this
      ensures c == old(consumers)[username].credentials[k].(key := key, publicKey := publicKey)
      ensures nextId == old(nextId)
      ensures var consumer := old(consumers)[username];
        consumers == old(consumers)[username := WithCredentials(consumer, consumer.credentials[k := c])]
      ensures log == old(log) + [PatchCredential(username, c.id)]
    {
      var consumer := consumers[username];
      c := consumer.credentials[k].(key := key, publicKey := publicKey);
      consumers := consumers[username := WithCredentials(consumer, consumer.credentials[k := c])];
      log := log + [PatchCredential(username, c.id)];
    }
  }

  lemma SomeGroup(groups: set<string>)
    requires groups != {}
    ensures exists g :: g in groups
  {
    assert (forall g :: g !in groups) ==> groups == {};
  }

  lemma ListedMore(groups: seq<string>, g: string)
    ensures Listed(groups + [g]) == Listed(groups) + {g}
  {
  }

  // ---------------------------------------------------------------- groups

  // What was logged since contains no PATCH of a credential.
  ghost predicate NoCredentialPatches(log0: seq<Request>, log: seq<Request>) {
    log0 <= log && forall x :: |log0| <= x < |log| ==> !log[x].PatchCredential?
  }

  // A group still to be added is listed twice.
  ghost predicate TwiceMissing(groups: seq<string>, saved: set<string>) {
    exists a, b :: 0 <= a < b < |groups| && groups[a] == groups[b] && groups[a] !in saved
  }

  lemma ListedPrefix(groups: seq<string>, k: nat)
    requires k < |groups|
    ensures Listed(groups[..k + 1]) == Listed(groups[..k]) + {groups[k]}
  {
    ListedMore(groups[..k], groups[k]);
    assert groups[..k + 1] == groups[..k] + [groups[k]];
  }

  lemma NotTwiceBefore(groups: seq<string>, saved: set<string>, k: nat)
    requires k < |groups| && !TwiceMissing(groups[..k], saved)
    ensures forall a, b :: 0 <= a < b < k && groups[a] == groups[b] ==> groups[a] in saved
  {
    forall a, b | 0 <= a < b < k && groups[a] == groups[b] ensures groups[a] in saved {
      assert groups[..k][a] == groups[a] && groups[..k][b] == groups[b];
    }
  }

  // The first group that is to be added a second time.
  ghost predicate FirstTwice(groups: seq<string>, saved: set<string>, k: nat) {
    k < |groups| && groups[k] !in saved && groups[k] in Listed(groups[..k]) && !TwiceMissing(groups[..k], saved)
  }

  // What a conflict leaves: the groups in front of the one that is added a second time are there, none was removed.
  ghost predicate Partly(before: Consumer, now: Consumer, groups: seq<string>) {
    exists k: nat ::
      FirstTwice(groups, before.groups, k) && now == WithGroups(before, before.groups + Listed(groups[..k]))
  }

  ghost predicate OnlyPartly(before: Table, now: Table, username: string, groups: seq<string>) {
    && username in before && username in now && now == before[username := now[username]]
    && Partly(before[username], now[username], groups)
  }

  lemma IsPartly(before: Table, now: Table, username: string, groups: seq<string>, k: nat)
    requires username in before && k < |groups|
    requires var c := before[username];
      && groups[k] !in c.groups && !TwiceMissing(groups[..k], c.groups) && TwiceMissing(groups[..k + 1], c.groups)
      && now == before[username := WithGroups(c, c.groups + Listed(groups[..k]) + {groups[k]})]
    ensures OnlyPartly(before, now, username, groups)
  {
    var c := before[username];
    NewGroup(groups, c.groups, k);
    hide TwiceMissing, Listed;
    assert c.groups + Listed(groups[..k]) + {groups[k]} == c.groups + Listed(groups[..k]);
    assert FirstTwice(groups, c.groups, k);
  }

  // The next group meets a conflict exactly when it was missing and has been added before.
  lemma NewGroup(groups: seq<string>, saved: set<string>, k: nat)
    requires k < |groups| && !TwiceMissing(groups[..k], saved)
    ensures TwiceMissing(groups[..k + 1], saved) <==> groups[k] in Listed(groups[..k]) && groups[k] !in saved
    ensures TwiceMissing(groups[..k + 1], saved) ==> TwiceMissing(groups, saved)
  {
    if groups[k] in Listed(groups[..k]) && groups[k] !in saved {
      var a :| 0 <= a < k && groups[..k][a] == groups[k];
      assert groups[..k + 1][a] == groups[..k + 1][k] == groups[a];
    }
    if TwiceMissing(groups[..k + 1], saved) {
      var a, b :| 0 <= a < b < k + 1 && groups[..k + 1][a] == groups[..k + 1][b] && groups[..k + 1][a] !in saved;
      assert groups[a] == groups[b];
      NotTwiceBefore(groups, saved, k);
      assert groups[..k][a] == groups[k];
    }
  }

  /** _save_groups_for_consumer: the consumer ends with exactly the listed groups.  It fails if and only if a group that
      has to be added is listed twice, and sends nothing if and only if the groups are already those listed. */
  method SaveGroups(kong: Kong, username: string, groups: seq<string>) returns (r: Outcome)
    requires username in kong.consumers
    modifies kong
    ensures r == Conflict <==> TwiceMissing(groups, old(kong.consumers)[username].groups)
    ensures r == Done ==>
      kong.consumers == old(kong.consumers)[username := WithGroups(old(kong.consumers)[username], Listed(groups))]
    ensures r == Conflict ==> OnlyPartly(old(kong.consumers), kong.consumers, username, groups)
    ensures NoCredentialPatches(old(kong.log), kong.log)
    ensures r == Done ==> (kong.log == old(kong.log) <==> old(kong.consumers)[username].groups == Listed(groups))
  {
    hide Listed, TwiceMissing;
    ghost var before, c := kong.consumers, kong.consumers[username];
    var saved := kong.GetGroups(username);
    r := AddGroups(kong, username, groups, saved);
    if r == Done {
      RemoveGroups(kong, username, groups, saved);
      assert Listed(groups) == (c.groups + Listed(groups)) - (c.groups - Listed(groups));
      assert c.groups == Listed(groups) <==> Listed(groups) - c.groups == {} && c.groups - Listed(groups) == {};
    }
  }

  method AddGroups(kong: Kong, username: string, groups: seq<string>, saved: seq<string>) returns (r: Outcome)
    requires username in kong.consumers && Listed(saved) == kong.consumers[username].groups
    modifies kong
    ensures r == Conflict <==> TwiceMissing(groups, Listed(saved))
    ensures r == Done ==> var consumer := old(kong.consumers)[username];
      kong.consumers == old(kong.consumers)[username := WithGroups(consumer, Listed(saved) + Listed(groups))]
    ensures r == Conflict ==> OnlyPartly(old(kong.consumers), kong.consumers, username, groups)
    ensures NoCredentialPatches(old(kong.log), kong.log)
    ensures r == Done ==> (kong.log == old(kong.log) <==> Listed(groups) - Listed(saved) == {})
  {
    ghost var before, c := kong.consumers, kong.consumers[username];
    assert !TwiceMissing(groups[..0], Listed(saved));
    assert Listed(groups[..0]) == {};
    assert Listed(saved) + {} == c.groups && before[username := WithGroups(c, c.groups)] == before;
    hide Listed, TwiceMissing, OnlyPartly;
    for k := 0 to |groups|
      invariant NoCredentialPatches(old(kong.log), kong.log)
      invariant kong.log == old(kong.log) <==> Listed(groups[..k]) - Listed(saved) == {}
      invariant kong.consumers == before[username := WithGroups(c, Listed(saved) + Listed(groups[..k]))]
      invariant !TwiceMissing(groups[..k], Listed(saved))
    {
      ListedPrefix(groups, k);
      NewGroup(groups, Listed(saved), k);
      InListed(saved, groups[k]);
      if groups[k] !in saved {
        var ok := kong.AddGroup(username, groups[k]);
        if !ok {
          IsPartly(before, kong.consumers, username, groups, k);
          return Conflict;
        }
        assert groups[k] in Listed(groups[..k + 1]) - Listed(saved);
        assert Listed(saved) + Listed(groups[..k + 1]) == Listed(saved) + Listed(groups[..k]) + {groups[k]};
      } else {
        assert Listed(groups[..k + 1]) - Listed(saved) == Listed(groups[..k]) - Listed(saved);
        assert Listed(saved) + Listed(groups[..k + 1]) == Listed(saved) + Listed(groups[..k]);
      }
    }
    assert groups[..|groups|] == groups;
    r := Done;
  }

  lemma InListed(groups: seq<string>, g: string)
    ensures g in Listed(groups) <==> g in groups
  {
  }

  method RemoveGroups(kong: Kong, username: string, groups: seq<string>, saved: seq<string>)
    requires username in kong.consumers && kong.consumers[username].groups == Listed(saved) + Listed(groups)
    requires forall a, b :: 0 <= a < b < |saved| ==> saved[a] != saved[b]
    modifies kong
    ensures kong.consumers == old(kong.consumers)[username := WithGroups(old(kong.consumers)[username], Listed(groups))]
    ensures NoCredentialPatches(old(kong.log), kong.log)
    ensures kong.log == old(kong.log) <==> Listed(saved) - Listed(groups) == {}
  {
    ghost var before, c := kong.consumers, kong.consumers[username];
    assert Listed(saved[..0]) == {};
    assert c.groups - ({} - Listed(groups)) == c.groups && before[username := WithGroups(c, c.groups)] == before;
    hide Listed;
    for a := 0 to |saved|
      invariant NoCredentialPatches(old(kong.log), kong.log)
      invariant kong.log == old(kong.log) <==> Listed(saved[..a]) - Listed(groups) == {}
      invariant kong.consumers == before[username := WithGroups(c, c.groups - (Listed(saved[..a]) - Listed(groups)))]
    {
      ListedPrefix(saved, a);
      InListed(saved, saved[a]);
      InListed(saved[..a], saved[a]);
      InListed(groups, saved[a]);
      if saved[a] !in groups {
        kong.RemoveGroup(username, saved[a]);
        assert saved[a] in Listed(saved[..a + 1]) - Listed(groups);
        assert c.groups - (Listed(saved[..a + 1]) - Listed(groups))
          == c.groups - (Listed(saved[..a]) - Listed(groups)) - {saved[a]};
      } else {
        assert Listed(saved[..a + 1]) - Listed(groups) == Listed(saved[..a]) - Listed(groups);
      }
    }
    assert saved[..|saved|] == saved;
    assert c.groups - (Listed(saved) - Listed(groups)) == Listed(groups);
  }

  // ---------------------------------------------------------------- credentials of a consumer

  // The consumer after _get_first_or_create_jwt_credential, c being the credential created if there was none.
  function WithCredential(consumer: Consumer, input: Input, c: Credential): Consumer {
    var cs := consumer.credentials;
    if HasAlgorithm(cs, Algorithm(input)) then
      var k := First(cs, Algorithm(input));
      WithCredentials(consumer, cs[k := Patched(cs[k], input)])
    else
      WithCredentials(consumer, cs + [c])
  }

  method SaveCredential(kong: Kong, input: Input) returns (c: Credential)
    requires input.username in kong.consumers
    modifies kong
    ensures Suits(c, input) && (input.algorithm.None? ==> c.algorithm == "HS256")
    ensures kong.consumers ==
      old(kong.consumers)[input.username := WithCredential(old(kong.consumers)[input.username], input, c)]
    ensures HasAlgorithm(old(kong.consumers)[input.username].credentials, Algorithm(input)) ==>
      kong.log == old(kong.log) + [PatchCredential(input.username, c.id)]
    ensures !HasAlgorithm(old(kong.consumers)[input.username].credentials, Algorithm(input)) ==>
      kong.log == old(kong.log) + [PostCredential(input.username)]
  {
    var saved := kong.consumers[input.username].credentials;
    var k := 0;
    while k < |saved| && saved[k].algorithm != Algorithm(input)
      invariant 0 <= k <= |saved|
      invariant forall j :: 0 <= j < k ==> saved[j].algorithm != Algorithm(input)
    {
      k := k + 1;
    }
    if k < |saved| {
      FirstIs(saved, Algorithm(input), k);
      var key, publicKey := Default(input.key, saved[k].key), Default(input.publicKey, saved[k].publicKey);
      c := kong.ChangeCredential(input.username, k, key, publicKey);
    } else {
      c := kong.AddCredential(input.username, Algorithm(input), input.key, input.publicKey);
    }
  }

  lemma CredentialMeets(consumer: Consumer, input: Input, c: Credential)
    requires consumer.groups == Listed(input.groups) && Suits(c, input)
    ensures Meets(WithCredential(consumer, input, c), input)
    ensures Meets(consumer, input) ==> WithCredential(consumer, input, c) == consumer
  {
    hide First;
    var cs, algorithm := consumer.credentials, Algorithm(input);
    if HasAlgorithm(cs, algorithm) {
      var k := First(cs, algorithm);
      FirstIs(cs[k := Patched(cs[k], input)], algorithm, k);
    } else {
      FirstIs(cs + [c], algorithm, |cs|);
    }
  }

  // ---------------------------------------------------------------- one consumer that is to be present

  // The consumer before the loop body deals with its groups.
  function Existing(consumers: Table, username: string): Consumer {
    if username in consumers then consumers[username] else Consumer({}, [])
  }

  // Groups are replaced, one credential is updated or added, and nothing else changes.
  ghost predicate Saved(before: Consumer, now: Consumer, input: Input) {
    exists c :: Suits(c, input) && now == WithCredential(WithGroups(before, Listed(input.groups)), input, c)
  }

  function GroupsOf(consumers: Table, username: string): set<string> {
    if username in consumers then consumers[username].groups else {}
  }

  ghost predicate Same(before: Table, now: Table, username: string) {
    (username in now <==> username in before) && (username in before ==> now[username] == before[username])
  }

  ghost predicate OnlyCredentialPatches(log: seq<Request>) {
    forall x :: 0 <= x < |log| ==> log[x].PatchCredential?
  }

  // The consumer is there, with the groups of the input and a credential for its algorithm.
  ghost predicate Quiet(consumers: Table, input: Input) {
    && input.username in consumers
    && consumers[input.username].groups == Listed(input.groups)
    && HasAlgorithm(consumers[input.username].credentials, Algorithm(input))
  }

  // What the loop body does to all consumers.
  ghost predicate Stepped(before: Table, now: Table, input: Input) {
    && input.username in now
    && Saved(Existing(before, input.username), now[input.username], input)
    && forall u :: u != input.username ==> Same(before, now, u)
  }

  // What a conflict leaves of the loop body.
  ghost predicate PartlyStepped(before: Table, now: Table, input: Input) {
    && input.username in now
    && Partly(Existing(before, input.username), now[input.username], input.groups)
    && forall u :: u != input.username ==> Same(before, now, u)
  }

  /** The loop body over the consumers to be present. */
  method SavePresent(kong: Kong, input: Input) returns (r: Outcome)
    modifies kong
    ensures r == Conflict <==> TwiceMissing(input.groups, GroupsOf(old(kong.consumers), input.username))
    ensures old(kong.log) <= kong.log
    ensures r == Done ==> input.username in kong.consumers && Meets(kong.consumers[input.username], input)
    ensures r == Done ==> Stepped(old(kong.consumers), kong.consumers, input)
    ensures r == Conflict ==> PartlyStepped(old(kong.consumers), kong.consumers, input)
    ensures r == Done ==>
      (OnlyCredentialPatches(kong.log[|old(kong.log)|..]) <==> Quiet(old(kong.consumers), input))
    ensures r == Done && input.username in old(kong.consumers) && Meets(old(kong.consumers)[input.username], input) ==>
      kong.consumers == old(kong.consumers) && OnlyCredentialPatches(kong.log[|old(kong.log)|..])
  {
    ghost var before, log0 := kong.consumers, kong.log;
    hide Meets, Listed, TwiceMissing, HasAlgorithm, First, WithCredential, Partly;
    var found := kong.HasConsumer(input.username);
    if !found {
      var ok := kong.AddConsumer(input.username);
    }
    ghost var log1, present := kong.log, kong.consumers[input.username];
    r := SaveGroups(kong, input.username, input.groups);
    if r == Done {
      ghost var grouped, log2 := kong.consumers[input.username], kong.log;
      var c := SaveCredential(kong, input);
      CredentialMeets(grouped, input, c);
      LogIs(log0, log1, log2, kong.log);
      if Quiet(before, input) {
        assert grouped == before[input.username];
        if Meets(before[input.username], input) { assert kong.consumers == before; }
      }
      if input.username in before && Meets(before[input.username], input) {
        MeetsMeans(before[input.username], input);
      }
    }
  }

  // The requests of the loop body: one for a new consumer, those for its groups, and one for the credential.
  lemma LogIs(log0: seq<Request>, log1: seq<Request>, log2: seq<Request>, log3: seq<Request>)
    requires NoCredentialPatches(log0, log1) && NoCredentialPatches(log1, log2)
    requires log2 <= log3 && |log3| == |log2| + 1
    ensures OnlyCredentialPatches(log3[|log0|..]) <==> log0 == log1 == log2 && log3[|log2|].PatchCredential?
  {
    if log0 != log1 {
      assert log3[|log0|..][0] == log1[|log0|];
    } else if log1 != log2 {
      assert log3[|log0|..][0] == log2[|log1|];
    } else {
      assert log3[|log0|..] == [log3[|log2|]];
    }
  }

  lemma MeetsMeans(consumer: Consumer, input: Input)
    requires Meets(consumer, input)
    ensures consumer.groups == Listed(input.groups) && HasAlgorithm(consumer.credentials, Algorithm(input))
  {
  }

  // ---------------------------------------------------------------- the whole script

  ghost predicate DistinctUsernames(inputs: seq<Input>) {
    forall k, l :: 0 <= k < l < |inputs| ==> inputs[k].username != inputs[l].username
  }

  // What an input asks of the server.
  ghost predicate Satisfied(consumers: Table, input: Input) {
    && (input.state == "absent" ==> input.username !in consumers)
    && (input.state == "present" ==> input.username in consumers && Meets(consumers[input.username], input))
  }

  ghost predicate Converged(consumers: Table, inputs: seq<Input>) {
    forall k :: 0 <= k < |inputs| ==> Satisfied(consumers, inputs[k])
  }

  // The last of the first n inputs that wants a consumer to be present, or -1.
  function LastPresent(inputs: seq<Input>, username: string, n: nat): (l: int)
    requires n <= |inputs|
    ensures -1 <= l < n
    ensures l >= 0 ==> inputs[l].state == "present" && inputs[l].username == username
    ensures forall x :: l < x < n ==> inputs[x].state != "present" || inputs[x].username != username
  {
    if n == 0 then -1
    else if inputs[n - 1].state == "present" && inputs[n - 1].username == username then n - 1
    else LastPresent(inputs, username, n - 1)
  }

  // One of the first n inputs wants the consumer to be absent.
  ghost predicate SomeAbsent(inputs: seq<Input>, username: string, n: nat)
    requires n <= |inputs|
  {
    exists x :: 0 <= x < n && inputs[x].state == "absent" && inputs[x].username == username
  }

  // What has become of a consumer when the first loop has passed a inputs and the second p: the last input that wants
  // it present decides, then one that wants it absent; a consumer that no input mentions stays.
  ghost predicate Settled(before: Table, now: Table, inputs: seq<Input>, u: string, a: nat, p: nat)
    requires a <= |inputs| && p <= |inputs|
  {
    var l := LastPresent(inputs, u, p);
    if l >= 0 then u in now && Meets(now[u], inputs[l])
    else if SomeAbsent(inputs, u, a) then u !in now
    else Same(before, now, u)
  }

  ghost predicate Progress(before: Table, now: Table, inputs: seq<Input>, a: nat, p: nat)
    requires a <= |inputs| && p <= |inputs|
  {
    && (forall u :: Settled(before, now, inputs, u, a, p))
    && (DistinctUsernames(inputs) && Converged(before, inputs) ==> now == before)
  }

  // The groups that the consumer of input k has when the second loop comes to it.
  ghost function GroupsAt(before: Table, inputs: seq<Input>, k: nat): set<string>
    requires k < |inputs|
  {
    var l := LastPresent(inputs, inputs[k].username, k);
    if l >= 0 then Listed(inputs[l].groups)
    else if SomeAbsent(inputs, inputs[k].username, |inputs|) then {}
    else GroupsOf(before, inputs[k].username)
  }

  // A group that input k has to add is listed twice.
  ghost predicate Twice(before: Table, inputs: seq<Input>, k: nat)
    requires k < |inputs|
  {
    inputs[k].state == "present" && TwiceMissing(inputs[k].groups, GroupsAt(before, inputs, k))
  }

  ghost predicate SomeTwice(before: Table, inputs: seq<Input>, n: nat)
    requires n <= |inputs|
  {
    exists k: nat :: k < n && Twice(before, inputs, k)
  }

  lemma TwiceStep(before: Table, inputs: seq<Input>, k: nat)
    requires k < |inputs|
    ensures SomeTwice(before, inputs, k + 1) <==> SomeTwice(before, inputs, k) || Twice(before, inputs, k)
    ensures SomeTwice(before, inputs, k + 1) ==> SomeTwice(before, inputs, |inputs|)
  {
    hide Twice;
  }

  lemma LastPresentStep(inputs: seq<Input>, u: string, k: nat)
    requires k < |inputs|
    ensures LastPresent(inputs, u, k + 1) ==
      if inputs[k].state == "present" && inputs[k].username == u then k else LastPresent(inputs, u, k)
  {
  }

  lemma SomeAbsentStep(inputs: seq<Input>, u: string, k: nat)
    requires k < |inputs|
    ensures SomeAbsent(inputs, u, k + 1) <==>
      SomeAbsent(inputs, u, k) || (inputs[k].state == "absent" && inputs[k].username == u)
  {
  }

  lemma AbsentStep(before: Table, now: Table, inputs: seq<Input>, k: nat)
    requires k < |inputs| && Progress(before, now, inputs, k, 0)
    ensures Progress(before, if inputs[k].state == "absent" then now - {inputs[k].username} else now, inputs, k + 1, 0)
    ensures DistinctUsernames(inputs) && Converged(before, inputs) && inputs[k].state == "absent" ==>
      inputs[k].username !in now
  {
    var name := inputs[k].username;
    var now' := if inputs[k].state == "absent" then now - {name} else now;
    if DistinctUsernames(inputs) && Converged(before, inputs) {
      assert Satisfied(before, inputs[k]);
      assert inputs[k].state == "absent" ==> now - {name} == now;
    }
    hide Meets, SomeAbsent, Converged, DistinctUsernames;
    var a := k + 1;
    forall u ensures Settled(before, now', inputs, u, a, 0) {
      SomeAbsentStep(inputs, u, k);
      assert Settled(before, now, inputs, u, k, 0);
    }
  }

  // The consumer of an input that is to be present, when its turn comes.
  lemma GroupsNow(before: Table, now: Table, inputs: seq<Input>, k: nat)
    requires k < |inputs| && inputs[k].state == "present" && Progress(before, now, inputs, |inputs|, k)
    ensures GroupsOf(now, inputs[k].username) == GroupsAt(before, inputs, k)
    ensures DistinctUsernames(inputs) && Converged(before, inputs) ==>
      inputs[k].username in now && Meets(now[inputs[k].username], inputs[k])
  {
    hide SomeAbsent, DistinctUsernames, HasAlgorithm, First, Suits;
    assert Settled(before, now, inputs, inputs[k].username, |inputs|, k);
    if Converged(before, inputs) {
      assert Satisfied(before, inputs[k]);
    }
  }

  lemma PresentStep(before: Table, now: Table, now': Table, inputs: seq<Input>, k: nat)
    requires k < |inputs| && inputs[k].state == "present" && Progress(before, now, inputs, |inputs|, k)
    requires inputs[k].username in now' && Meets(now'[inputs[k].username], inputs[k])
    requires forall u :: u != inputs[k].username ==> Same(now, now', u)
    requires inputs[k].username in now && Meets(now[inputs[k].username], inputs[k]) ==> now' == now
    ensures Progress(before, now', inputs, |inputs|, k + 1)
  {
    GroupsNow(before, now, inputs, k);
    hide Meets, SomeAbsent, Converged, DistinctUsernames;
    var p := k + 1;
    forall u ensures Settled(before, now', inputs, u, |inputs|, p) {
      LastPresentStep(inputs, u, k);
      assert Settled(before, now, inputs, u, |inputs|, k);
      assert u != inputs[k].username ==> Same(now, now', u);
    }
  }

  lemma SkipStep(before: Table, now: Table, inputs: seq<Input>, k: nat)
    requires k < |inputs| && inputs[k].state != "present" && Progress(before, now, inputs, |inputs|, k)
    ensures Progress(before, now, inputs, |inputs|, k + 1)
  {
    hide Meets, SomeAbsent, Converged, DistinctUsernames;
    var p := k + 1;
    forall u ensures Settled(before, now, inputs, u, |inputs|, p) {
      LastPresentStep(inputs, u, k);
      assert Settled(before, now, inputs, u, |inputs|, k);
    }
  }

  /** With distinct usernames every input is satisfied in the end. */
  lemma SettledConverges(before: Table, now: Table, inputs: seq<Input>)
    requires DistinctUsernames(inputs) && forall u :: Settled(before, now, inputs, u, |inputs|, |inputs|)
    ensures Converged(now, inputs)
  {
    hide Meets;
    forall k | 0 <= k < |inputs| ensures Satisfied(now, inputs[k]) {
      var u := inputs[k].username;
      assert Settled(before, now, inputs, u, |inputs|, |inputs|);
      var l := LastPresent(inputs, u, |inputs|);
      assert l >= 0 ==> l == k;
      if inputs[k].state == "absent" { assert SomeAbsent(inputs, u, |inputs|); }
    }
  }

  lemma MorePatches(log0: seq<Request>, log1: seq<Request>, log2: seq<Request>)
    requires log0 <= log1 <= log2
    ensures OnlyCredentialPatches(log2[|log0|..]) <==>
      OnlyCredentialPatches(log1[|log0|..]) && OnlyCredentialPatches(log2[|log1|..])
  {
    var x, y := log1[|log0|..], log2[|log1|..];
    assert log2[|log0|..] == x + y;
    if OnlyCredentialPatches(x + y) {
      forall i | 0 <= i < |x| ensures x[i].PatchCredential? { assert (x + y)[i] == x[i]; }
      forall i | 0 <= i < |y| ensures y[i].PatchCredential? { assert (x + y)[|x| + i] == y[i]; }
    }
  }

  lemma ProgressStarts(before: Table, inputs: seq<Input>)
    ensures Progress(before, before, inputs, 0, 0) && !SomeTwice(before, inputs, 0)
  {
    hide Meets, Converged, DistinctUsernames;
    forall u ensures Settled(before, before, inputs, u, 0, 0) {
      assert !SomeAbsent(inputs, u, 0);
    }
  }

  lemma TwiceIs(before: Table, inputs: seq<Input>, k: nat)
    requires k < |inputs|
    ensures Twice(before, inputs, k) <==>
      inputs[k].state == "present" && TwiceMissing(inputs[k].groups, GroupsAt(before, inputs, k))
  {
  }

  lemma ProgressMeans(before: Table, now: Table, inputs: seq<Input>)
    requires Progress(before, now, inputs, |inputs|, |inputs|)
    ensures forall u :: Settled(before, now, inputs, u, |inputs|, |inputs|)
    ensures DistinctUsernames(inputs) && Converged(before, inputs) ==> now == before
  {
    hide Settled, Converged, DistinctUsernames;
  }

  lemma NoPatches(log: seq<Request>)
    ensures OnlyCredentialPatches(log[|log|..])
  {
  }

  // ---------------------------------------------------------------- the states of a run

  // The consumers that the first loop leaves.
  ghost predicate Cleared(before: Table, now: Table, inputs: seq<Input>, n: nat)
    requires n <= |inputs|
  {
    forall u :: if SomeAbsent(inputs, u, n) then u !in now else Same(before, now, u)
  }

  // The state before each turn of the second loop, and the last one.
  ghost predicate Trace(states: seq<Table>, inputs: seq<Input>, n: nat)
    requires n <= |inputs|
  {
    && |states| == n + 1
    && forall k :: 0 <= k < n ==>
         if inputs[k].state == "present" then Stepped(states[k], states[k + 1], inputs[k])
         else states[k + 1] == states[k]
  }

  // Every turn finds its consumer with the right groups and a credential to be updated.
  ghost predicate QuietUpTo(states: seq<Table>, inputs: seq<Input>, n: nat)
    requires n <= |inputs| && |states| > n
  {
    forall k :: 0 <= k < n && inputs[k].state == "present" ==> Quiet(states[k], inputs[k])
  }

  lemma ClearStep(before: Table, now: Table, inputs: seq<Input>, k: nat)
    requires k < |inputs| && Cleared(before, now, inputs, k)
    ensures Cleared(before, if inputs[k].state == "absent" then now - {inputs[k].username} else now, inputs, k + 1)
  {
    hide SomeAbsent;
    var now' := if inputs[k].state == "absent" then now - {inputs[k].username} else now;
    var n := k + 1;
    forall u ensures if SomeAbsent(inputs, u, n) then u !in now' else Same(before, now', u) {
      SomeAbsentStep(inputs, u, k);
      assert if SomeAbsent(inputs, u, k) then u !in now else Same(before, now, u);
    }
  }

  lemma TraceStep(states: seq<Table>, now: Table, inputs: seq<Input>, k: nat)
    requires k < |inputs| && Trace(states, inputs, k)
    requires if inputs[k].state == "present" then Stepped(states[k], now, inputs[k]) else now == states[k]
    ensures Trace(states + [now], inputs, k + 1)
    ensures QuietUpTo(states + [now], inputs, k + 1) <==>
      QuietUpTo(states, inputs, k) && (inputs[k].state == "present" ==> Quiet(states[k], inputs[k]))
  {
    hide Stepped, Quiet;
    var more := states + [now];
    assert forall x :: 0 <= x <= k ==> more[x] == states[x];
  }

  lemma TraceStarts(before: Table, inputs: seq<Input>)
    ensures Cleared(before, before, inputs, 0)
    ensures forall now :: Trace([now], inputs, 0) && QuietUpTo([now], inputs, 0)
  {
  }

  // The states of a run that ends.
  ghost predicate Run(before: Table, states: seq<Table>, inputs: seq<Input>) {
    && |states| == |inputs| + 1
    && Trace(states, inputs, |inputs|)
    && Cleared(before, states[0], inputs, |inputs|)
    && forall u :: Settled(before, states[|inputs|], inputs, u, |inputs|, |inputs|)
  }

  lemma RunEnds(before: Table, states: seq<Table>, inputs: seq<Input>)
    requires Trace(states, inputs, |inputs|) && Cleared(before, states[0], inputs, |inputs|)
    requires forall u :: Settled(before, states[|inputs|], inputs, u, |inputs|, |inputs|)
    ensures Run(before, states, inputs)
  {
  }

  // A run that meets a conflict at the input behind the last of these states.
  ghost predicate Stopped(before: Table, states: seq<Table>, now: Table, inputs: seq<Input>) {
    && states != [] && |states| - 1 < |inputs|
    && var k := |states| - 1;
    && Trace(states, inputs, k) && Cleared(before, states[0], inputs, |inputs|)
    && Twice(before, inputs, k) && !SomeTwice(before, inputs, k) && PartlyStepped(states[k], now, inputs[k])
  }

  lemma StopsAt(before: Table, states: seq<Table>, now: Table, inputs: seq<Input>, k: nat)
    requires k < |inputs| && |states| == k + 1 && Trace(states, inputs, k)
    requires Cleared(before, states[0], inputs, |inputs|)
    requires Twice(before, inputs, k) && !SomeTwice(before, inputs, k) && PartlyStepped(states[k], now, inputs[k])
    ensures Stopped(before, states, now, inputs)
  {
    hide Trace, Cleared, Twice, SomeTwice, PartlyStepped;
  }

  /** save_consumers up to the rate limits: a consumer that some input wants present has exactly the groups, and a
      credential as asked, of the last such input; one that is only wanted absent is gone; the others are as before.
      With distinct usernames every input is satisfied, and on a server that is already so nothing changes and no
      consumer, group or credential is created or deleted.  It fails if and only if a group that has to be added to a
      consumer is listed twice; then the inputs in front have been dealt with, and of that input the groups in front. */
  method SaveConsumers(kong: Kong, inputs: seq<Input>) returns (r: Outcome, ghost states: seq<Table>)
    modifies kong
    ensures r == (if SomeTwice(old(kong.consumers), inputs, |inputs|) then Conflict else Done)
    ensures r == Done ==> forall u :: Settled(old(kong.consumers), kong.consumers, inputs, u, |inputs|, |inputs|)
    ensures r == Done && DistinctUsernames(inputs) ==> Converged(kong.consumers, inputs)
    ensures old(kong.log) <= kong.log
    ensures r == Done && DistinctUsernames(inputs) && Converged(old(kong.consumers), inputs) ==>
      kong.consumers == old(kong.consumers) && OnlyCredentialPatches(kong.log[|old(kong.log)|..])
    ensures r == Done ==> Run(old(kong.consumers), states, inputs) && kong.consumers == states[|inputs|]
    ensures r == Conflict ==> Stopped(old(kong.consumers), states, kong.consumers, inputs)
    ensures r == Done ==> (OnlyCredentialPatches(kong.log[|old(kong.log)|..]) <==>
      states[0] == old(kong.consumers) && QuietUpTo(states, inputs, |inputs|))
  {
    hide *;
    ghost var before, log0 := kong.consumers, kong.log;
    ghost var again := DistinctUsernames(inputs) && Converged(before, inputs);
    ProgressStarts(before, inputs);
    NoPatches(log0);
    TraceStarts(before, inputs);
    for k := 0 to |inputs|
      invariant log0 <= kong.log
      invariant again ==> kong.log == log0
      invariant Progress(before, kong.consumers, inputs, k, 0) && Cleared(before, kong.consumers, inputs, k)
      invariant kong.consumers.Keys <= before.Keys
      invariant OnlyCredentialPatches(kong.log[|log0|..]) <==> kong.consumers == before
    {
      AbsentStep(before, kong.consumers, inputs, k);
      ClearStep(before, kong.consumers, inputs, k);
      var username := inputs[k].username;
      if inputs[k].state == "absent" {
        assert username !in kong.consumers ==> kong.consumers - {username} == kong.consumers;
        var found := kong.HasConsumer(username);
        if found {
          ghost var log := kong.log;
          kong.RemoveConsumer(username);
          OneDelete(log0, log, username);
          assert username in before && username !in kong.consumers;
        }
      }
    }
    states := [kong.consumers];
    for k := 0 to |inputs|
      invariant log0 <= kong.log
      invariant again ==> OnlyCredentialPatches(kong.log[|log0|..])
      invariant Progress(before, kong.consumers, inputs, |inputs|, k) && !SomeTwice(before, inputs, k)
      invariant Trace(states, inputs, k) && |states| == k + 1 && states[k] == kong.consumers
      invariant Cleared(before, states[0], inputs, |inputs|)
      invariant OnlyCredentialPatches(kong.log[|log0|..]) <==> states[0] == before && QuietUpTo(states, inputs, k)
    {
      ghost var now, log := kong.consumers, kong.log;
      TwiceStep(before, inputs, k);
      TwiceIs(before, inputs, k);
      if inputs[k].state == "present" {
        GroupsNow(before, now, inputs, k);
        r := SavePresent(kong, inputs[k]);
        if r == Conflict {
          StopsAt(before, states, kong.consumers, inputs, k);
          return;
        }
        SteppedMeans(now, kong.consumers, inputs[k]);
        PresentStep(before, now, kong.consumers, inputs, k);
        MorePatches(log0, log, kong.log);
      } else {
        SkipStep(before, kong.consumers, inputs, k);
      }
      TraceStep(states, kong.consumers, inputs, k);
      states := states + [kong.consumers];
    }
    ProgressMeans(before, kong.consumers, inputs);
    RunEnds(before, states, inputs);
    if DistinctUsernames(inputs) { SettledConverges(before, kong.consumers, inputs); }
    r := Done;
  }

  lemma SteppedMeans(before: Table, now: Table, input: Input)
    requires Stepped(before, now, input)
    ensures forall u :: u != input.username ==> Same(before, now, u)
  {
    hide Saved, Same;
  }

  lemma OneDelete(log0: seq<Request>, log: seq<Request>, username: string)
    requires log0 <= log
    ensures !OnlyCredentialPatches((log + [DeleteConsumer(username)])[|log0|..])
  {
    var more := (log + [DeleteConsumer(username)])[|log0|..];
    assert more[|more| - 1] == DeleteConsumer(username);
  }
}
