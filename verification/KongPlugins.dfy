/** Saving the plugins of one API of a Kong server: the requests sent for an answer of the server to GET. */
module KongPlugins {
  import opened KongApis

  // A saved plugin; consumerId is empty unless the plugin overrides another for one consumer.
  datatype Plugin = Plugin(id: nat, name: string, consumerId: string)

  datatype PluginRequest = PostPlugin(body: Object) | PatchPlugin(target: nat, body: Object) | DeletePlugin(target: nat)

  predicate HasName(plugins: seq<Plugin>, name: string) {
    exists a :: 0 <= a < |plugins| && plugins[a].name == name
  }

  // The plugins that are not overrides.
  function Unowned(plugins: seq<Plugin>): seq<Plugin> {
    if plugins == [] then []
    else
      var n := |plugins| - 1;
      Unowned(plugins[..n]) + if plugins[n].consumerId == "" then [plugins[n]] else []
  }

  // The first plugin with a name.
  function FirstNamed(plugins: seq<Plugin>, name: string): (p: Plugin)
    requires HasName(plugins, name)
    ensures p in plugins && p.name == name
  {
    if plugins[0].name == name then plugins[0] else FirstNamed(plugins[1..], name)
  }

  // ---------------------------------------------------------------- the requests

  function Posts(saved: seq<Plugin>, inputs: seq<Object>): seq<PluginRequest> {
    if inputs == [] then []
    else
      var n := |inputs| - 1;
      Posts(saved, inputs[..n]) + if HasName(saved, inputs[n].name) then [] else [PostPlugin(inputs[n])]
  }

  function PatchOf(saved: seq<Plugin>, input: Object): PluginRequest
    requires HasName(saved, input.name)
  {
    PatchPlugin(saved[|saved| - 1].id, WithId(input, FirstNamed(saved, input.name).id))
  }

  // The url of the request is built from the last saved plugin, its body from the first one with the name.
  function Patches(saved: seq<Plugin>, inputs: seq<Object>): seq<PluginRequest> {
    if inputs == [] then []
    else
      var n := |inputs| - 1;
      Patches(saved, inputs[..n]) + if HasName(saved, inputs[n].name) then [PatchOf(saved, inputs[n])] else []
  }

  function Deletes(saved: seq<Plugin>, inputs: seq<Object>): seq<PluginRequest> {
    if saved == [] then []
    else
      var n := |saved| - 1;
      Deletes(saved[..n], inputs) + if Wanted(saved[n].name, inputs) then [] else [DeletePlugin(saved[n].id)]
  }

  function Requests(answer: seq<Plugin>, inputs: seq<Object>): seq<PluginRequest> {
    var saved := Unowned(answer);
    Posts(saved, inputs) + Patches(saved, inputs) + Deletes(saved, inputs)
  }

  lemma Steps(saved: seq<Plugin>, inputs: seq<Object>, k: nat)
    requires k < |inputs|
    ensures Posts(saved, inputs[..k + 1]) ==
      Posts(saved, inputs[..k]) + if HasName(saved, inputs[k].name) then [] else [PostPlugin(inputs[k])]
    ensures Patches(saved, inputs[..k + 1]) ==
      Patches(saved, inputs[..k]) + if HasName(saved, inputs[k].name) then [PatchOf(saved, inputs[k])] else []
  {
    hide HasName, PatchOf;
    assert inputs[..k + 1][..k] == inputs[..k];
  }

  lemma SavedSteps(plugins: seq<Plugin>, inputs: seq<Object>, a: nat)
    requires a < |plugins|
    ensures Unowned(plugins[..a + 1]) ==
      Unowned(plugins[..a]) + if plugins[a].consumerId == "" then [plugins[a]] else []
    ensures Deletes(plugins[..a + 1], inputs) ==
      Deletes(plugins[..a], inputs) + if Wanted(plugins[a].name, inputs) then [] else [DeletePlugin(plugins[a].id)]
  {
    hide Wanted;
    assert plugins[..a + 1][..a] == plugins[..a];
  }

  lemma NothingYet(saved: seq<Plugin>, inputs: seq<Object>)
    ensures Unowned([]) == []
    ensures Posts(saved, []) == Patches(saved, []) == Deletes([], inputs) == []
  {
  }

  // _save_plugins_for_api, given the saved plugins
  method SavePlugins(answer: seq<Plugin>, inputs: seq<Object>) returns (requests: seq<PluginRequest>)
    ensures requests == Requests(answer, inputs)
  {
    hide Unowned, Posts, Patches, Deletes, HasName, Wanted, FirstNamed;
    var saved := [];
    NothingYet(saved, inputs);
    for a := 0 to |answer|
      invariant saved == Unowned(answer[..a])
    {
      SavedSteps(answer, inputs, a);
      if answer[a].consumerId == "" {
        saved := saved + [answer[a]];
      }
    }
    assert answer[..|answer|] == answer;
    var posts := SendPosts(saved, inputs);
    var patches := SendPatches(saved, inputs);
    var deletes := SendDeletes(saved, inputs);
    requests := posts + patches + deletes;
  }

  method SendPosts(saved: seq<Plugin>, inputs: seq<Object>) returns (posts: seq<PluginRequest>)
    ensures posts == Posts(saved, inputs)
  {
    hide *;
    posts := [];
    NothingYet(saved, inputs);
    for k := 0 to |inputs|
      invariant posts == Posts(saved, inputs[..k])
    {
      Steps(saved, inputs, k);
      if !HasName(saved, inputs[k].name) {
        posts := posts + [PostPlugin(inputs[k])];
      }
    }
    assert inputs[..|inputs|] == inputs;
  }

  method SendPatches(saved: seq<Plugin>, inputs: seq<Object>) returns (patches: seq<PluginRequest>)
    ensures patches == Patches(saved, inputs)
  {
    hide Patches, HasName, FirstNamed;
    patches := [];
    NothingYet(saved, inputs);
    for k := 0 to |inputs|
      invariant patches == Patches(saved, inputs[..k])
    {
      Steps(saved, inputs, k);
      var input := inputs[k];
      if HasName(saved, input.name) {
        var last, matched := FindPlugin(saved, input.name);
        patches := patches + [PatchPlugin(last.id, WithId(input, matched.id))];
      }
    }
    assert inputs[..|inputs|] == inputs;
  }

  method SendDeletes(saved: seq<Plugin>, inputs: seq<Object>) returns (deletes: seq<PluginRequest>)
    ensures deletes == Deletes(saved, inputs)
  {
    hide *;
    deletes := [];
    NothingYet(saved, inputs);
    for a := 0 to |saved|
      invariant deletes == Deletes(saved[..a], inputs)
    {
      SavedSteps(saved, inputs, a);
      if !Wanted(saved[a].name, inputs) {
        deletes := deletes + [DeletePlugin(saved[a].id)];
      }
    }
    assert saved[..|saved|] == saved;
  }

  // The comprehension over the saved plugins: its loop variable keeps the last plugin, its result starts with the
  // match.
  method FindPlugin(saved: seq<Plugin>, name: string) returns (last: Plugin, matched: Plugin)
    requires HasName(saved, name)
    ensures last == saved[|saved| - 1] && matched == FirstNamed(saved, name)
  {
    var ids := [];
    last := saved[0];
    var a := 0;
    while a < |saved|
      invariant 0 <= a <= |saved|
      invariant last == saved[if a > 0 then a - 1 else 0]
      invariant ids == [] <==> !HasName(saved[..a], name)
      invariant ids != [] ==> ids[0] == FirstNamed(saved, name)
    {
      FirstIn(saved, name, a);
      last := saved[a];
      if last.name == name {
        ids := ids + [last];
      }
      a := a + 1;
    }
    assert saved[..|saved|] == saved;
    matched := ids[0];
  }

  lemma {:induction false} FirstIn(plugins: seq<Plugin>, name: string, a: nat)
    requires a < |plugins|
    ensures HasName(plugins[..a + 1], name) <==> HasName(plugins[..a], name) || plugins[a].name == name
    ensures !HasName(plugins[..a], name) && plugins[a].name == name ==>
      HasName(plugins, name) && FirstNamed(plugins, name) == plugins[a]
  {
    assert plugins[..a + 1][a] == plugins[a];
    assert plugins[..a] == plugins[..a + 1][..a];
    if !HasName(plugins[..a], name) && plugins[a].name == name && a > 0 {
      assert plugins[..a][0] == plugins[0];
      assert plugins[1..][..a - 1] == plugins[..a][1..];
      NotInRest(plugins[..a], name);
      FirstIn(plugins[1..], name, a - 1);
    }
  }

  lemma NotInRest(plugins: seq<Plugin>, name: string)
    requires |plugins| > 0 && !HasName(plugins, name)
    ensures !HasName(plugins[1..], name)
  {
    forall b | 0 <= b < |plugins| - 1 ensures plugins[1..][b].name != name {
      assert plugins[b + 1].name != name;
    }
  }

  // ---------------------------------------------------------------- what the requests can reach

  ghost predicate Targets(r: PluginRequest, id: nat) {
    !r.PostPlugin? && r.target == id
  }

  ghost predicate DistinctIds(plugins: seq<Plugin>) {
    forall a, b :: 0 <= a < b < |plugins| ==> plugins[a].id != plugins[b].id
  }

  lemma {:induction false} UnownedDistinct(answer: seq<Plugin>)
    requires DistinctIds(answer)
    ensures DistinctIds(Unowned(answer))
  {
    if answer != [] {
      var n := |answer| - 1;
      UnownedDistinct(answer[..n]);
      UnownedIs(answer[..n]);
      forall a | 0 <= a < |Unowned(answer[..n])| ensures Unowned(answer[..n])[a].id != answer[n].id {
        assert Unowned(answer[..n])[a] in answer[..n];
      }
    }
  }

  lemma {:induction false} UnownedIs(answer: seq<Plugin>)
    ensures forall p :: p in Unowned(answer) <==> p in answer && p.consumerId == ""
  {
    if answer != [] {
      var n := |answer| - 1;
      UnownedIs(answer[..n]);
      assert answer == answer[..n] + [answer[n]];
    }
  }

  // A request with a target is a PATCH of the last plugin, or a DELETE of one whose name is not wanted.
  lemma {:induction false} PatchesReach(saved: seq<Plugin>, inputs: seq<Object>, r: PluginRequest)
    ensures r in Patches(saved, inputs) <==>
      exists k :: 0 <= k < |inputs| && HasName(saved, inputs[k].name) && r == PatchOf(saved, inputs[k])
  {
    hide HasName, PatchOf;
    if inputs != [] {
      var n := |inputs| - 1;
      PatchesReach(saved, inputs[..n], r);
      assert inputs == inputs[..n] + [inputs[n]];
    }
  }

  lemma {:induction false} DeletesReach(saved: seq<Plugin>, inputs: seq<Object>, r: PluginRequest)
    ensures r in Deletes(saved, inputs) <==>
      exists p :: p in saved && !Wanted(p.name, inputs) && r == DeletePlugin(p.id)
  {
    hide Wanted;
    if saved != [] {
      var n := |saved| - 1;
      DeletesReach(saved[..n], inputs, r);
      assert saved == saved[..n] + [saved[n]];
    }
  }

  lemma {:induction false} PostsAre(saved: seq<Plugin>, inputs: seq<Object>, r: PluginRequest)
    ensures r in Posts(saved, inputs) <==>
      exists k :: 0 <= k < |inputs| && !HasName(saved, inputs[k].name) && r == PostPlugin(inputs[k])
  {
    hide HasName;
    if inputs != [] {
      var n := |inputs| - 1;
      PostsAre(saved, inputs[..n], r);
      assert inputs == inputs[..n] + [inputs[n]];
    }
  }

  lemma OneForId(plugins: seq<Plugin>, p: Plugin, q: Plugin)
    requires DistinctIds(plugins) && p in plugins && q in plugins && p.id == q.id
    ensures p == q
  {
  }

  // What a request with a target was built for.
  lemma TargetIsSaved(saved: seq<Plugin>, inputs: seq<Object>, r: PluginRequest)
    requires r in Posts(saved, inputs) + Patches(saved, inputs) + Deletes(saved, inputs) && !r.PostPlugin?
    ensures exists q :: q in saved && q.id == r.target
  {
    PostsAre(saved, inputs, r);
    PatchesReach(saved, inputs, r);
    DeletesReach(saved, inputs, r);
    hide Posts, Patches, Deletes, FirstNamed, Wanted;
    if r.PatchPlugin? {
      assert saved[|saved| - 1] in saved;
    }
  }

  /** What is sent, and for what: a POST for each input whose name is not saved, a PATCH for each whose name is, a
      DELETE for each saved plugin whose name is not wanted; overrides do not count as saved. */
  lemma RequestsAre(answer: seq<Plugin>, inputs: seq<Object>, r: PluginRequest)
    ensures var saved := Unowned(answer);
      r in Requests(answer, inputs) <==>
        || (exists k :: 0 <= k < |inputs| && !HasName(saved, inputs[k].name) && r == PostPlugin(inputs[k]))
        || (exists k :: 0 <= k < |inputs| && HasName(saved, inputs[k].name) && r == PatchOf(saved, inputs[k]))
        || (exists p :: p in answer && p.consumerId == "" && !Wanted(p.name, inputs) && r == DeletePlugin(p.id))
  {
    hide HasName, Wanted, PatchOf, Posts, Patches, Deletes, Unowned;
    var saved := Unowned(answer);
    PostsAre(saved, inputs, r);
    PatchesReach(saved, inputs, r);
    DeletesReach(saved, inputs, r);
    UnownedIs(answer);
  }

  function Rank(r: PluginRequest): nat {
    match r
    case PostPlugin(_) => 0
    case PatchPlugin(_, _) => 1
    case DeletePlugin(_) => 2
  }

  /** First all POSTs, then all PATCHes, then all DELETEs. */
  lemma RequestsInOrder(answer: seq<Plugin>, inputs: seq<Object>, i: nat, j: nat)
    requires i <= j < |Requests(answer, inputs)|
    ensures Rank(Requests(answer, inputs)[i]) <= Rank(Requests(answer, inputs)[j])
  {
    hide HasName, Wanted, PatchOf, Posts, Patches, Deletes, Unowned;
    var saved := Unowned(answer);
    forall r ensures (r in Posts(saved, inputs) ==> Rank(r) == 0) && (r in Patches(saved, inputs) ==> Rank(r) == 1)
      && (r in Deletes(saved, inputs) ==> Rank(r) == 2)
    {
      PostsAre(saved, inputs, r);
      PatchesReach(saved, inputs, r);
      DeletesReach(saved, inputs, r);
      PatchIs(saved, inputs);
    }
  }

  lemma PatchIs(saved: seq<Plugin>, inputs: seq<Object>)
    ensures forall k :: 0 <= k < |inputs| && HasName(saved, inputs[k].name) ==> PatchOf(saved, inputs[k]).PatchPlugin?
  {
    hide HasName, FirstNamed;
  }

  /** No request changes or deletes a plugin that overrides another for one consumer. */
  lemma OverridesUntouched(answer: seq<Plugin>, inputs: seq<Object>, p: Plugin)
    requires DistinctIds(answer) && p in answer && p.consumerId != ""
    ensures forall r :: r in Requests(answer, inputs) ==> !Targets(r, p.id)
  {
    var saved := Unowned(answer);
    UnownedIs(answer);
    hide Unowned, DistinctIds;
    forall r | r in Requests(answer, inputs) ensures !Targets(r, p.id) {
      if Targets(r, p.id) {
        TargetIsSaved(saved, inputs, r);
        var q :| q in saved && q.id == r.target;
        OneForId(answer, p, q);
      }
    }
  }

  // A PATCH names in its url the plugin that its body names.
  ghost predicate Reaches(r: PluginRequest)
    requires r.PatchPlugin?
  {
    "id" in r.body.attributes && r.body.attributes["id"] == Ident(r.target)
  }

  ghost predicate LastHas(saved: seq<Plugin>, name: string) {
    |saved| > 0 && saved[|saved| - 1].name == name && !HasName(saved[..|saved| - 1], name)
  }

  // Only the name of the last saved plugin is asked for again, and no plugin before has that name.
  ghost predicate OnlyLastAgain(saved: seq<Plugin>, inputs: seq<Object>) {
    forall k :: 0 <= k < |inputs| && HasName(saved, inputs[k].name) ==> LastHas(saved, inputs[k].name)
  }

  lemma PatchReaches(saved: seq<Plugin>, input: Object)
    requires DistinctIds(saved) && HasName(saved, input.name)
    ensures PatchOf(saved, input).PatchPlugin? && (Reaches(PatchOf(saved, input)) <==> LastHas(saved, input.name))
  {
    var name, n := input.name, |saved| - 1;
    var first := FirstNamed(saved, name);
    assert Reaches(PatchOf(saved, input)) <==> first.id == saved[n].id;
    hide FirstNamed;
    if LastHas(saved, name) {
      FirstIn(saved, name, n);
    } else if saved[n].name == name {
      FirstBefore(saved, name, n);
    }
  }

  // A plugin among the first n with the name comes before plugin n.
  lemma {:induction false} FirstBefore(plugins: seq<Plugin>, name: string, n: nat)
    requires n < |plugins| && DistinctIds(plugins) && HasName(plugins[..n], name)
    ensures HasName(plugins, name) && FirstNamed(plugins, name).id != plugins[n].id
  {
    var a :| 0 <= a < n && plugins[..n][a].name == name;
    assert plugins[a].name == name;
    if plugins[0].name != name {
      assert plugins[1..][..n - 1][a - 1].name == name;
      FirstBefore(plugins[1..], name, n - 1);
    }
  }

  /** All PATCHes for an API reach the plugin that their body names if and only if no saved name but that of the last
      saved plugin is asked for again, and that name was saved once. */
  lemma PatchesReachPlugins(answer: seq<Plugin>, inputs: seq<Object>)
    requires DistinctIds(answer)
    ensures (forall r :: r in Requests(answer, inputs) && r.PatchPlugin? ==> Reaches(r))
      <==> OnlyLastAgain(Unowned(answer), inputs)
  {
    hide Reaches, LastHas, HasName, PatchOf;
    var saved := Unowned(answer);
    UnownedDistinct(answer);
    forall r | r in Requests(answer, inputs) && r.PatchPlugin? && OnlyLastAgain(saved, inputs) ensures Reaches(r) {
      PostsAre(saved, inputs, r);
      DeletesReach(saved, inputs, r);
      PatchesReach(saved, inputs, r);
      var k :| 0 <= k < |inputs| && HasName(saved, inputs[k].name) && r == PatchOf(saved, inputs[k]);
      PatchReaches(saved, inputs[k]);
    }
    forall k | 0 <= k < |inputs| && HasName(saved, inputs[k].name) && !LastHas(saved, inputs[k].name)
      ensures exists r :: r in Requests(answer, inputs) && r.PatchPlugin? && !Reaches(r)
    {
      var r := PatchOf(saved, inputs[k]);
      PatchReaches(saved, inputs[k]);
      PatchesReach(saved, inputs, r);
      assert r in Requests(answer, inputs) && r.PatchPlugin?;
    }
  }

  const ACL: Plugin := Plugin(1, "acl", "")
  const JWT: Plugin := Plugin(2, "jwt", "")

  /** Of the plugins acl and jwt, saved in this order, asking for acl sends its settings to jwt. */
  lemma AstrayPatch(input: Object)
    requires input.name == "acl"
    ensures PatchPlugin(2, WithId(input, 1)) in Requests([ACL, JWT], [input])
    ensures !OnlyLastAgain(Unowned([ACL, JWT]), [input])
  {
    var saved := [ACL, JWT];
    assert saved[..1] == [ACL] && saved[..0] == [] && [ACL][..0] == [];
    assert Unowned([ACL]) == Unowned([]) + [ACL];
    assert Unowned(saved) == Unowned([ACL]) + [JWT] == saved;
    assert saved[0].name == "acl";
    assert FirstNamed(saved, "acl") == ACL;
    PatchesReach(saved, [input], PatchPlugin(2, WithId(input, 1)));
    assert [input][0] == input;
  }

  // Plugins and inputs with the same names.
  ghost predicate SameNames(saved: seq<Plugin>, inputs: seq<Object>) {
    forall name :: HasName(saved, name) <==> Wanted(name, inputs)
  }

  /** Nothing is created or deleted if and only if the names saved are those wanted. */
  lemma OnlyPatchesIff(answer: seq<Plugin>, inputs: seq<Object>)
    ensures (forall r :: r in Requests(answer, inputs) ==> r.PatchPlugin?) <==> SameNames(Unowned(answer), inputs)
  {
    var saved := Unowned(answer);
    forall r ensures r in Requests(answer, inputs) <==>
        r in Posts(saved, inputs) || r in Patches(saved, inputs) || r in Deletes(saved, inputs) {}
    if SameNames(saved, inputs) {
      forall r | r in Requests(answer, inputs) ensures r.PatchPlugin? {
        PostsAre(saved, inputs, r);
        PatchesReach(saved, inputs, r);
        DeletesReach(saved, inputs, r);
      }
    } else {
      var name :| HasName(saved, name) != Wanted(name, inputs);
      if HasName(saved, name) {
        var a :| 0 <= a < |saved| && saved[a].name == name;
        assert saved[a] in saved;
        DeletesReach(saved, inputs, DeletePlugin(saved[a].id));
      } else {
        var k :| 0 <= k < |inputs| && inputs[k].name == name;
        PostsAre(saved, inputs, PostPlugin(inputs[k]));
      }
    }
  }
}
