/** Reconciling the APIs of a Kong server with a list of wanted APIs.

    The server keeps one record per API under an id; its answers to the requests of the script are the contracts of the
    class `Kong`. */
module KongApis {

  datatype Value = Text(text: string) | Ident(id: nat) | Other(code: int)

  // A JSON object, with its name apart from its other attributes.
  datatype Object = Object(name: string, attributes: map<string, Value>)

  datatype Row = Row(id: nat, data: Object)

  datatype Request = Post | Patch(id: nat) | Delete(id: nat)

  datatype Outcome = Done | TooManyApis | Conflict

  const MAX_PAGE_SIZE: nat := 2000

  // _sanitized_api_data
  function Sanitized(d: Object): (r: Object)
    ensures r.name == d.name
    ensures forall k :: k in r.attributes <==> k in d.attributes && k != "plugins"
    ensures forall k :: k in r.attributes ==> r.attributes[k] == d.attributes[k]
  {
    Object(d.name, map k | k in d.attributes && k != "plugins" :: d.attributes[k])
  }

  function WithId(d: Object, id: nat): Object {
    d.(attributes := d.attributes["id" := Ident(id)])
  }

  // ---------------------------------------------------------------- the server

  type Table = map<nat, Object>

  // Records carry their id, and no two have one name.
  ghost predicate WellFormed(apis: Table)
  {
    && (forall i :: i in apis ==> "id" in apis[i].attributes && apis[i].attributes["id"] == Ident(i))
    && (forall i, j :: i in apis && j in apis && apis[i].name == apis[j].name ==> i == j)
  }

  ghost predicate Has(apis: Table, name: string)
  {
    exists i :: i in apis && apis[i].name == name
  }

  // A record after its attributes were merged with those of a request.
  function Merged(record: Object, body: Object): Object {
    record.(attributes := record.attributes + body.attributes)
  }

  predicate HasRow(rows: seq<Row>, id: nat) {
    exists a :: 0 <= a < |rows| && rows[a].id == id
  }

  lemma RowAdded(rows: seq<Row>, row: Row, id: nat)
    ensures HasRow(rows + [row], id) <==> HasRow(rows, id) || row.id == id
  {
    assert (rows + [row])[|rows|] == row;
    if HasRow(rows, id) {
      var a :| 0 <= a < |rows| && rows[a].id == id;
      assert (rows + [row])[a].id == id;
    }
  }

  // The rows list every record once.
  ghost predicate Lists(rows: seq<Row>, apis: Table)
  {
    && (forall a :: 0 <= a < |rows| ==> rows[a].id in apis && rows[a].data == apis[rows[a].id])
    && (forall i :: i in apis ==> HasRow(rows, i))
    && (forall a, b :: 0 <= a < b < |rows| ==> rows[a].id != rows[b].id)
  }

  lemma SomeId(ids: set<nat>)
    requires ids != {}
    ensures exists i :: i in ids
  {
    assert (forall i :: i !in ids) ==> ids == {};
  }

  class Kong {
    var apis: Table
    var nextId: nat
    // Attributes the server fills in for a new API.
    const defaults: map<string, Value>
    // The requests received that change something.
    var log: seq<Request>

    ghost predicate Valid()
      reads this
    {
      WellFormed(apis) && forall i :: i in apis ==> i < nextId
    }

    // GET /apis
    method GetApis() returns (rows: seq<Row>)
      requires Valid()
      ensures Lists(rows, apis)
    {
      rows := [];
      var left := apis.Keys;
      while left != {}
        invariant left <= apis.Keys
        invariant forall a :: 0 <= a < |rows| ==> rows[a].id in apis.Keys - left && rows[a].data == apis[rows[a].id]
        invariant forall i :: i in apis && i !in left ==> HasRow(rows, i)
        invariant forall a, b :: 0 <= a < b < |rows| ==> rows[a].id != rows[b].id
        decreases left
      {
        SomeId(left);
        var i :| i in left;
        forall j: nat {
          RowAdded(rows, Row(i, apis[i]), j);
        }
        rows := rows + [Row(i, apis[i])];
        left := left - {i};
      }
    }

    // POST /apis
    method PostApi(body: Object) returns (ok: bool)
      requires Valid()
      modifies this
      ensures Valid()
      ensures ok <==> !Has(old(apis), body.name)
      ensures !ok ==> apis == old(apis) && log == old(log)
      ensures ok ==> log == old(log) + [Post] && old(nextId) !in old(apis)
      ensures ok ==> apis == old(apis)[old(nextId) := WithId(Merged(Object(body.name, defaults), body), old(nextId))]
    {
      if exists i :: i in apis && apis[i].name == body.name {
        return false;
      }
      apis := apis[nextId := WithId(Merged(Object(body.name, defaults), body), nextId)];
      nextId := nextId + 1;
      log := log + [Post];
      ok := true;
    }

    // PATCH /apis/id, with the API's own name and id in the body
    method PatchApi(id: nat, body: Object)
      requires Valid() && id in apis && body.name == apis[id].name
      requires "id" in body.attributes && body.attributes["id"] == Ident(id)
      modifies this
      ensures Valid() && nextId == old(nextId)
      ensures apis == old(apis)[id := Merged(old(apis)[id], body)] && log == old(log) + [Patch(id)]
    {
      apis := apis[id := Merged(apis[id], body)];
      log := log + [Patch(id)];
    }

    // DELETE /apis/id
    method DeleteApi(id: nat)
      requires Valid() && id in apis
      modifies this
      ensures Valid() && nextId == old(nextId)
      ensures apis == old(apis) - {id} && log == old(log) + [Delete(id)]
    {
      apis := apis - {id};
      log := log + [Delete(id)];
    }
  }

  // ---------------------------------------------------------------- what the script promises

  predicate Wanted(name: string, inputs: seq<Object>)
  {
    exists k :: 0 <= k < |inputs| && inputs[k].name == name
  }

  // Attributes that are sent as the input has them; ids are the server's own.
  predicate Sent(x: string)
  {
    x != "plugins" && x != "id"
  }

  // Of the first n inputs, input k is the last one of its name that has attribute x.
  ghost predicate Decides(inputs: seq<Object>, n: nat, k: nat, x: string)
    requires n <= |inputs|
  {
    && k < n && Sent(x) && x in inputs[k].attributes
    && forall l :: k < l < n && inputs[l].name == inputs[k].name ==> x !in inputs[l].attributes
  }

  // A record has each attribute of the first n inputs of its name as the last of them that has it.
  ghost predicate Carries(data: Object, inputs: seq<Object>, n: nat)
    requires n <= |inputs|
  {
    forall k: nat, x :: Decides(inputs, n, k, x) && inputs[k].name == data.name ==>
      x in data.attributes && data.attributes[x] == inputs[k].attributes[x]
  }

  // One of the first n inputs has this name and this attribute.
  ghost predicate Mentions(inputs: seq<Object>, n: nat, name: string, x: string)
    requires n <= |inputs|
  {
    exists l :: 0 <= l < n && inputs[l].name == name && x in inputs[l].attributes
  }

  ghost predicate SameAttribute(data: Object, record: Object, x: string)
  {
    && (x in data.attributes <==> x in record.attributes)
    && (x in data.attributes ==> data.attributes[x] == record.attributes[x])
  }

  // Attributes that no input of the name sends are those the server fills in.
  ghost predicate OnlySent(data: Object, defaults: map<string, Value>, inputs: seq<Object>)
  {
    forall x :: x != "id" && (!Sent(x) || !Mentions(inputs, |inputs|, data.name, x)) ==>
      SameAttribute(data, Object(data.name, defaults), x)
  }

  // Records that were not there before have nothing that was not sent.
  ghost predicate NothingStray(before: Table, now: Table, defaults: map<string, Value>, inputs: seq<Object>)
  {
    forall i :: i in now && i !in before ==> OnlySent(now[i], defaults, inputs)
  }

  // The server has exactly the wanted APIs, each with its wanted attributes.
  ghost predicate Converged(apis: Table, inputs: seq<Object>)
  {
    && (forall i :: i in apis ==> Wanted(apis[i].name, inputs) && Carries(apis[i], inputs, |inputs|))
    && (forall k :: 0 <= k < |inputs| ==> Has(apis, inputs[k].name))
  }

  lemma ConvergedHas(apis: Table, inputs: seq<Object>, k: nat)
    requires k < |inputs|
    ensures Converged(apis, inputs) ==> Has(apis, inputs[k].name)
  {
  }

  // Whether a row has this name.
  predicate Listed(rows: seq<Row>, name: string)
  {
    exists a :: 0 <= a < |rows| && rows[a].data.name == name
  }

  lemma ListedIsHas(rows: seq<Row>, apis: Table, name: string)
    requires Lists(rows, apis)
    ensures Listed(rows, name) <==> Has(apis, name)
  {
    if Has(apis, name) {
      var i :| i in apis && apis[i].name == name;
      var a :| 0 <= a < |rows| && rows[a].id == i;
      assert rows[a].data.name == name;
    }
  }

  // The id of the first row with a name.
  method FindId(rows: seq<Row>, name: string) returns (id: nat)
    requires Listed(rows, name)
    ensures exists a :: 0 <= a < |rows| && rows[a].id == id && rows[a].data.name == name
  {
    var a := 0;
    while rows[a].data.name != name
      invariant 0 <= a < |rows|
      invariant exists b :: a <= b < |rows| && rows[b].data.name == name
      decreases |rows| - a
    {
      a := a + 1;
    }
    id := rows[a].id;
  }

  // ---------------------------------------------------------------- creating

  ghost predicate Missing(before: Table, inputs: seq<Object>, l: int)
    requires 0 <= l < |inputs|
  {
    !Has(before, inputs[l].name)
  }

  // An earlier input has the name of input k.
  ghost predicate Repeats(inputs: seq<Object>, k: nat)
    requires k < |inputs|
  {
    exists l :: 0 <= l < k && inputs[l].name == inputs[k].name
  }

  // A name that the server does not have is listed twice.
  ghost predicate MissingTwice(before: Table, inputs: seq<Object>, n: nat)
    requires n <= |inputs|
  {
    exists k: nat :: k < n && Missing(before, inputs, k) && Repeats(inputs, k)
  }

  // The first input whose name is missing and was listed before.
  ghost predicate FirstTwice(before: Table, inputs: seq<Object>, k: nat)
    requires k < |inputs|
  {
    Missing(before, inputs, k) && Repeats(inputs, k) && !MissingTwice(before, inputs, k)
  }

  // The record was made from the input.
  ghost predicate IsNew(data: Object, input: Object)
  {
    && data.name == input.name
    && forall x :: Sent(x) && x in input.attributes ==>
         x in data.attributes && data.attributes[x] == input.attributes[x]
  }

  // After the POSTs for the first k inputs.
  ghost predicate Created(before: Table, now: Table, inputs: seq<Object>, k: nat)
    requires k <= |inputs|
  {
    && (forall i :: i in before ==> i in now && now[i] == before[i])
    && (forall i :: i in now && i !in before ==>
          exists l: nat :: l < k && Missing(before, inputs, l) && IsNew(now[i], inputs[l]))
    && (forall l :: 0 <= l < k && Missing(before, inputs, l) ==> Has(now, inputs[l].name))
  }

  // The POSTs up to the conflict have been done.
  ghost predicate StoppedAt(before: Table, now: Table, inputs: seq<Object>, k: nat)
  {
    k < |inputs| && FirstTwice(before, inputs, k) && Created(before, now, inputs, k)
  }

  lemma StopsAt(before: Table, now: Table, inputs: seq<Object>, k: nat)
    requires k < |inputs| && Missing(before, inputs, k) && Repeats(inputs, k) && !MissingTwice(before, inputs, k)
    requires Created(before, now, inputs, k)
    ensures exists l :: StoppedAt(before, now, inputs, l)
  {
    assert StoppedAt(before, now, inputs, k);
  }

  lemma CreateStep(before: Table, now: Table, now': Table, inputs: seq<Object>, k: nat, id: nat, data: Object)
    requires k < |inputs| && Created(before, now, inputs, k) && Missing(before, inputs, k)
    requires id !in now && now' == now[id := data] && IsNew(data, inputs[k])
    ensures Created(before, now', inputs, k + 1)
  {
    assert data.name == inputs[k].name;
    hide IsNew, Missing, Has;
    CreatedHas(before, now, now', inputs, k, id, data);
    CreatedFrom(before, now, now', inputs, k, id, data);
  }

  lemma CreatedFrom(before: Table, now: Table, now': Table, inputs: seq<Object>, k: nat, id: nat, data: Object)
    requires k < |inputs| && Created(before, now, inputs, k) && Missing(before, inputs, k)
    requires now' == now[id := data] && IsNew(data, inputs[k])
    ensures forall i :: i in now' && i !in before ==>
      exists l: nat :: l < k + 1 && Missing(before, inputs, l) && IsNew(now'[i], inputs[l])
  {
    hide IsNew, Missing, Has;
  }

  lemma CreatedHas(before: Table, now: Table, now': Table, inputs: seq<Object>, k: nat, id: nat, data: Object)
    requires k < |inputs| && Created(before, now, inputs, k)
    requires id !in now && now' == now[id := data] && data.name == inputs[k].name
    ensures forall l :: 0 <= l < k + 1 && Missing(before, inputs, l) ==> Has(now', inputs[l].name)
  {
    hide IsNew, Missing, Has;
    forall l | 0 <= l < k + 1 && Missing(before, inputs, l) ensures Has(now', inputs[l].name) {
      StillHas(now, now', inputs[l].name, id, data);
    }
  }

  lemma StillHas(now: Table, now': Table, name: string, id: nat, data: Object)
    requires now' == now[id := data] && (Has(now, name) || data.name == name)
    requires id in now ==> now[id].name == data.name
    ensures Has(now', name)
  {
    if data.name == name {
      assert id in now' && now'[id].name == name;
    } else {
      var i :| i in now && now[i].name == name;
      assert i in now' && now'[i].name == name;
    }
  }

  lemma KeepStep(before: Table, now: Table, inputs: seq<Object>, k: nat)
    requires k < |inputs| && Created(before, now, inputs, k) && !Missing(before, inputs, k)
    ensures Created(before, now, inputs, k + 1)
  {
    hide Missing, Has, IsNew;
  }

  // A missing name meets a conflict exactly when an earlier input has it.
  lemma NewName(before: Table, now: Table, inputs: seq<Object>, k: nat)
    requires k < |inputs| && Created(before, now, inputs, k) && Missing(before, inputs, k)
    ensures Has(now, inputs[k].name) <==> Repeats(inputs, k)
  {
    if Repeats(inputs, k) {
      var l :| 0 <= l < k && inputs[l].name == inputs[k].name;
      assert Missing(before, inputs, l);
    }
    if Has(now, inputs[k].name) {
      var i :| i in now && now[i].name == inputs[k].name;
      assert i !in before;
      var l: nat :| l < k && Missing(before, inputs, l) && IsNew(now[i], inputs[l]);
    }
  }

  lemma TwiceStep(before: Table, inputs: seq<Object>, k: nat)
    requires k < |inputs|
    ensures MissingTwice(before, inputs, k + 1) <==>
      MissingTwice(before, inputs, k) || (Missing(before, inputs, k) && Repeats(inputs, k))
    ensures MissingTwice(before, inputs, k + 1) ==> MissingTwice(before, inputs, |inputs|)
  {
    hide Missing, Repeats;
  }

  lemma NewRecord(defaults: map<string, Value>, input: Object, id: nat)
    ensures IsNew(WithId(Merged(Object(input.name, defaults), Sanitized(input)), id), input)
  {
  }

  lemma NewRecordOnlySent(defaults: map<string, Value>, inputs: seq<Object>, k: nat, id: nat)
    requires k < |inputs|
    ensures OnlySent(WithId(Merged(Object(inputs[k].name, defaults), Sanitized(inputs[k])), id), defaults, inputs)
  {
  }

  lemma StrayStep(before: Table, now: Table, defaults: map<string, Value>, inputs: seq<Object>, id: nat, data: Object)
    requires NothingStray(before, now, defaults, inputs) && (id in before || OnlySent(data, defaults, inputs))
    ensures NothingStray(before, now[id := data], defaults, inputs)
  {
    hide OnlySent;
  }

  lemma NothingNew(before: Table, defaults: map<string, Value>, inputs: seq<Object>)
    ensures NothingStray(before, before, defaults, inputs)
  {
  }

  ghost predicate Extends(before: Table, now: Table)
  {
    forall i :: i in before ==> i in now && now[i] == before[i]
  }

  // The loop over the inputs to be created.
  method CreateMissing(kong: Kong, inputs: seq<Object>, rows: seq<Row>) returns (r: Outcome)
    requires kong.Valid() && Lists(rows, kong.apis)
    modifies kong
    ensures r == (if MissingTwice(old(kong.apis), inputs, |inputs|) then Conflict else Done)
    ensures kong.Valid() && old(kong.log) <= kong.log && Extends(old(kong.apis), kong.apis)
    ensures r == Done ==> Created(old(kong.apis), kong.apis, inputs, |inputs|)
    ensures r == Conflict ==> exists k :: StoppedAt(old(kong.apis), kong.apis, inputs, k)
    ensures NothingStray(old(kong.apis), kong.apis, kong.defaults, inputs)
    ensures Converged(old(kong.apis), inputs) ==> kong.log == old(kong.log)
  {
    ghost var before := kong.apis;
    assert Created(before, before, inputs, 0);
    assert !MissingTwice(before, inputs, 0);
    hide *;
    NothingNew(before, kong.defaults, inputs);
    for k := 0 to |inputs|
      invariant kong.Valid() && old(kong.log) <= kong.log
      invariant Created(before, kong.apis, inputs, k) && !MissingTwice(before, inputs, k)
      invariant NothingStray(before, kong.apis, kong.defaults, inputs)
      invariant Converged(before, inputs) ==> kong.log == old(kong.log)
    {
      var input := inputs[k];
      ListedIsHas(rows, before, input.name);
      MissingIs(before, inputs, k);
      TwiceStep(before, inputs, k);
      CreatedExtends(before, kong.apis, inputs, k);
      if !Listed(rows, input.name) {
        ghost var now, id := kong.apis, kong.nextId;
        NewName(before, now, inputs, k);
        ConvergedHas(before, inputs, k);
        var ok := kong.PostApi(Sanitized(input));
        if !ok {
          StopsAt(before, kong.apis, inputs, k);
          return Conflict;
        }
        NewRecord(kong.defaults, input, id);
        NewRecordOnlySent(kong.defaults, inputs, k, id);
        StrayStep(before, now, kong.defaults, inputs, id, kong.apis[id]);
        CreateStep(before, now, kong.apis, inputs, k, id, kong.apis[id]);
      } else {
        KeepStep(before, kong.apis, inputs, k);
      }
    }
    CreatedExtends(before, kong.apis, inputs, |inputs|);
    r := Done;
  }

  lemma CreatedExtends(before: Table, now: Table, inputs: seq<Object>, k: nat)
    requires k <= |inputs| && Created(before, now, inputs, k)
    ensures Extends(before, now)
  {
  }

  lemma MissingIs(before: Table, inputs: seq<Object>, k: nat)
    requires k < |inputs|
    ensures Missing(before, inputs, k) <==> !Has(before, inputs[k].name)
  {
  }

  // ---------------------------------------------------------------- a record under PATCHes

  // What the PATCHes for the first k inputs make of a record.
  function PatchedBy(record: Object, inputs: seq<Object>, k: nat, id: nat): (r: Object)
    requires k <= |inputs|
    ensures r.name == record.name
  {
    if k == 0 then record
    else
      var before := PatchedBy(record, inputs, k - 1, id);
      if inputs[k - 1].name == record.name then Merged(before, Sanitized(WithId(inputs[k - 1], id))) else before
  }

  lemma {:induction false} PatchedCarries(record: Object, inputs: seq<Object>, n: nat, id: nat)
    requires n <= |inputs|
    ensures Carries(PatchedBy(record, inputs, n, id), inputs, n)
  {
    if n > 0 {
      PatchedCarries(record, inputs, n - 1, id);
      var data := PatchedBy(record, inputs, n, id);
      forall k: nat, x | Decides(inputs, n, k, x) && inputs[k].name == data.name
        ensures x in data.attributes && data.attributes[x] == inputs[k].attributes[x]
      {
        if k < n - 1 { assert Decides(inputs, n - 1, k, x); }
      }
    }
  }

  // An attribute that no input of the name has stays as it was.
  lemma {:induction false} PatchedKeeps(record: Object, inputs: seq<Object>, n: nat, id: nat, x: string)
    requires n <= |inputs| && x != "id" && (Sent(x) ==> !Mentions(inputs, n, record.name, x))
    ensures SameAttribute(PatchedBy(record, inputs, n, id), record, x)
  {
    if n > 0 { PatchedKeeps(record, inputs, n - 1, id, x); }
  }

  lemma {:induction false} PatchedId(record: Object, inputs: seq<Object>, n: nat, id: nat)
    requires n <= |inputs| && "id" in record.attributes && record.attributes["id"] == Ident(id)
    ensures var data := PatchedBy(record, inputs, n, id); "id" in data.attributes && data.attributes["id"] == Ident(id)
  {
    if n > 0 { PatchedId(record, inputs, n - 1, id); }
  }

  // The last input of a name that has an attribute decides it.
  lemma {:induction false} SomeDecides(inputs: seq<Object>, n: nat, l: nat, x: string) returns (k: nat)
    requires n <= |inputs| && l < n && Sent(x) && x in inputs[l].attributes
    ensures Decides(inputs, n, k, x) && inputs[k].name == inputs[l].name
    decreases n - l
  {
    if Decides(inputs, n, l, x) {
      k := l;
    } else {
      var m :| l < m < n && inputs[m].name == inputs[l].name && x in inputs[m].attributes;
      k := SomeDecides(inputs, n, m, x);
    }
  }

  lemma AttributeRepeats(record: Object, inputs: seq<Object>, id: nat, x: string)
    requires Carries(record, inputs, |inputs|) && "id" in record.attributes && record.attributes["id"] == Ident(id)
    ensures SameAttribute(PatchedBy(record, inputs, |inputs|, id), record, x)
  {
    hide PatchedBy, Decides;
    var n, data := |inputs|, PatchedBy(record, inputs, |inputs|, id);
    if x == "id" {
      PatchedId(record, inputs, n, id);
    } else if Sent(x) && Mentions(inputs, n, record.name, x) {
      var l :| 0 <= l < n && inputs[l].name == record.name && x in inputs[l].attributes;
      PatchedCarries(record, inputs, n, id);
      var k := SomeDecides(inputs, n, l, x);
    } else {
      PatchedKeeps(record, inputs, n, id, x);
    }
  }

  /** PATCHes of a record that already carries its inputs change nothing in the end. */
  lemma PatchRepeats(record: Object, inputs: seq<Object>, id: nat)
    requires Carries(record, inputs, |inputs|) && "id" in record.attributes && record.attributes["id"] == Ident(id)
    ensures PatchedBy(record, inputs, |inputs|, id) == record
  {
    hide PatchedBy, Carries;
    var data := PatchedBy(record, inputs, |inputs|, id);
    forall x ensures SameAttribute(data, record, x) { AttributeRepeats(record, inputs, id, x); }
    assert forall x :: SameAttribute(data, record, x) ==> (x in data.attributes <==> x in record.attributes);
    assert data.attributes == record.attributes;
  }

  // A record made from the only input of its name carries it.
  lemma NewCarries(data: Object, inputs: seq<Object>, l: nat)
    requires l < |inputs| && IsNew(data, inputs[l])
    requires forall k :: 0 <= k < |inputs| && inputs[k].name == data.name ==> k == l
    ensures Carries(data, inputs, |inputs|)
  {
  }

  // ---------------------------------------------------------------- updating

  // After the PATCHes for the first k inputs.
  ghost predicate Updated(before: Table, now: Table, inputs: seq<Object>, k: nat)
    requires k <= |inputs|
  {
    && (forall i :: i in before ==> i in now && now[i] == PatchedBy(before[i], inputs, k, i))
    && (forall i :: i in now && i !in before ==> Wanted(now[i].name, inputs) && Carries(now[i], inputs, |inputs|))
    && (forall l :: 0 <= l < |inputs| ==> Has(now, inputs[l].name))
    && (Converged(before, inputs) ==> now.Keys == before.Keys)
  }

  lemma CreatedThenUpdated(before: Table, now: Table, inputs: seq<Object>)
    requires Created(before, now, inputs, |inputs|) && !MissingTwice(before, inputs, |inputs|)
    ensures Updated(before, now, inputs, 0)
  {
    forall l | 0 <= l < |inputs| ensures Has(now, inputs[l].name) {
      if Has(before, inputs[l].name) {
        var i :| i in before && before[i].name == inputs[l].name;
        assert i in now && now[i].name == inputs[l].name;
      } else {
        assert Missing(before, inputs, l);
      }
    }
    hide Converged, Has, IsNew, Decides, Carries;
    forall i | i in now && i !in before ensures Wanted(now[i].name, inputs) && Carries(now[i], inputs, |inputs|) {
      var l: nat :| l < |inputs| && Missing(before, inputs, l) && IsNew(now[i], inputs[l]);
      OnlyOne(before, now[i], inputs, l);
      NewCarries(now[i], inputs, l);
    }
    if Converged(before, inputs) {
      NoneMissing(before, inputs);
      assert now.Keys == before.Keys;
    }
  }

  lemma NoneMissing(apis: Table, inputs: seq<Object>)
    requires Converged(apis, inputs)
    ensures forall l :: 0 <= l < |inputs| ==> !Missing(apis, inputs, l)
  {
  }

  lemma OnlyOne(before: Table, data: Object, inputs: seq<Object>, l: nat)
    requires l < |inputs| && Missing(before, inputs, l) && IsNew(data, inputs[l])
    requires !MissingTwice(before, inputs, |inputs|)
    ensures data.name == inputs[l].name && forall k :: 0 <= k < |inputs| && inputs[k].name == data.name ==> k == l
  {
    forall k: nat | k < |inputs| && inputs[k].name == data.name ensures k == l {
      assert Missing(before, inputs, k);
      assert !Repeats(inputs, k) && !Repeats(inputs, l);
    }
  }

  lemma UpdateStep(before: Table, now: Table, inputs: seq<Object>, k: nat, id: nat)
    requires WellFormed(before) && k < |inputs| && Updated(before, now, inputs, k)
    requires id in before && id in now && before[id].name == inputs[k].name
    ensures Updated(before, now[id := Merged(now[id], Sanitized(WithId(inputs[k], id)))], inputs, k + 1)
  {
    hide Converged, Has, Carries, Merged, Sanitized, WithId, PatchedBy, Wanted, WellFormed;
    var data := Merged(now[id], Sanitized(WithId(inputs[k], id)));
    PatchedOnce(before[id], inputs, k, id);
    OthersKeep(before, inputs, k, id);
    forall l | 0 <= l < |inputs| ensures Has(now[id := data], inputs[l].name) {
      StillHas(now, now[id := data], inputs[l].name, id, data);
    }
  }

  lemma PatchedOnce(record: Object, inputs: seq<Object>, k: nat, id: nat)
    requires k < |inputs| && inputs[k].name == record.name
    ensures PatchedBy(record, inputs, k + 1, id)
      == Merged(PatchedBy(record, inputs, k, id), Sanitized(WithId(inputs[k], id)))
  {
  }

  lemma OthersKeep(before: Table, inputs: seq<Object>, k: nat, id: nat)
    requires WellFormed(before) && k < |inputs| && id in before && before[id].name == inputs[k].name
    ensures forall i :: i in before && i != id ==>
      PatchedBy(before[i], inputs, k + 1, i) == PatchedBy(before[i], inputs, k, i)
  {
    hide PatchedBy;
    forall i | i in before && i != id
      ensures PatchedBy(before[i], inputs, k + 1, i) == PatchedBy(before[i], inputs, k, i)
    {
      PatchedSkips(before[i], inputs, k, i);
    }
  }

  lemma PatchedSkips(record: Object, inputs: seq<Object>, k: nat, id: nat)
    requires k < |inputs| && inputs[k].name != record.name
    ensures PatchedBy(record, inputs, k + 1, id) == PatchedBy(record, inputs, k, id)
  {
  }

  lemma SkipStep(before: Table, now: Table, inputs: seq<Object>, k: nat)
    requires k < |inputs| && Updated(before, now, inputs, k) && Missing(before, inputs, k)
    ensures Updated(before, now, inputs, k + 1)
  {
    hide Converged, Carries, PatchedBy;
    forall i | i in before ensures PatchedBy(before[i], inputs, k + 1, i) == PatchedBy(before[i], inputs, k, i) {
      PatchedSkips(before[i], inputs, k, i);
    }
  }

  lemma RowOf(rows: seq<Row>, before: Table, now: Table, inputs: seq<Object>, k: nat, id: nat)
    requires Lists(rows, before) && k < |inputs| && Updated(before, now, inputs, k)
    requires exists a :: 0 <= a < |rows| && rows[a].id == id && rows[a].data.name == inputs[k].name
    ensures id in before && id in now && before[id].name == inputs[k].name == now[id].name
  {
    hide Has, Converged, Carries, HasRow, PatchedBy;
  }

  ghost predicate OnlyPatches(log: seq<Request>)
  {
    forall x :: 0 <= x < |log| ==> log[x].Patch?
  }

  lemma NoRequests(log: seq<Request>)
    ensures OnlyPatches(log[|log|..])
  {
  }

  lemma OneMorePatch(log0: seq<Request>, log: seq<Request>, id: nat)
    requires log0 <= log && OnlyPatches(log[|log0|..])
    ensures log0 <= log + [Patch(id)] && OnlyPatches((log + [Patch(id)])[|log0|..])
  {
    assert (log + [Patch(id)])[|log0|..] == log[|log0|..] + [Patch(id)];
  }

  lemma PatchBody(input: Object, id: nat)
    ensures var body := Sanitized(WithId(input, id));
      body.name == input.name && "id" in body.attributes && body.attributes["id"] == Ident(id)
  {
  }

  // The loop over the inputs to be updated.
  method UpdateExisting(kong: Kong, inputs: seq<Object>, rows: seq<Row>, ghost before: Table)
    requires kong.Valid() && WellFormed(before) && Lists(rows, before)
    requires Created(before, kong.apis, inputs, |inputs|) && !MissingTwice(before, inputs, |inputs|)
    requires NothingStray(before, kong.apis, kong.defaults, inputs)
    modifies kong
    ensures NothingStray(before, kong.apis, kong.defaults, inputs)
    ensures kong.Valid() && old(kong.log) <= kong.log && OnlyPatches(kong.log[|old(kong.log)|..])
    ensures Updated(before, kong.apis, inputs, |inputs|)
  {
    hide *;
    CreatedThenUpdated(before, kong.apis, inputs);
    NoRequests(kong.log);
    for k := 0 to |inputs|
      invariant kong.Valid() && old(kong.log) <= kong.log && OnlyPatches(kong.log[|old(kong.log)|..])
      invariant Updated(before, kong.apis, inputs, k) && NothingStray(before, kong.apis, kong.defaults, inputs)
    {
      var input := inputs[k];
      ListedIsHas(rows, before, input.name);
      MissingIs(before, inputs, k);
      if Listed(rows, input.name) {
        var savedId := FindId(rows, input.name);
        RowOf(rows, before, kong.apis, inputs, k, savedId);
        input := WithId(input, savedId);
        UpdateStep(before, kong.apis, inputs, k, savedId);
        OneMorePatch(old(kong.log), kong.log, savedId);
        PatchBody(inputs[k], savedId);
        ghost var now := kong.apis;
        kong.PatchApi(savedId, Sanitized(input));
        StrayStep(before, now, kong.defaults, inputs, savedId, kong.apis[savedId]);
      } else {
        SkipStep(before, kong.apis, inputs, k);
      }
    }
  }

  // ---------------------------------------------------------------- deleting

  // After the DELETEs for the first n rows.
  ghost predicate Deleted(full: Table, now: Table, rows: seq<Row>, n: nat, inputs: seq<Object>)
    requires n <= |rows|
  {
    && (forall i :: i in now ==> i in full && now[i] == full[i])
    && (forall i :: i in full && i !in now ==>
          exists a :: 0 <= a < n && rows[a].id == i && !Wanted(rows[a].data.name, inputs))
    && (forall a :: 0 <= a < n && !Wanted(rows[a].data.name, inputs) ==> rows[a].id !in now)
  }

  lemma DeleteStep(full: Table, now: Table, rows: seq<Row>, n: nat, inputs: seq<Object>)
    requires n < |rows| && Deleted(full, now, rows, n, inputs)
    ensures Deleted(full, if Wanted(rows[n].data.name, inputs) then now else now - {rows[n].id}, rows, n + 1, inputs)
  {
    hide Wanted;
  }

  // A row not yet deleted is still there.
  lemma NotYetDeleted(before: Table, full: Table, now: Table, rows: seq<Row>, n: nat, inputs: seq<Object>)
    requires n < |rows| && Deleted(full, now, rows, n, inputs)
    requires Lists(rows, before) && Updated(before, full, inputs, |inputs|)
    ensures rows[n].id in now
  {
    hide Wanted, Has, Converged, Carries, HasRow, PatchedBy;
  }

  // The loop over the saved APIs to be deleted.
  method DeleteUnwanted(kong: Kong, inputs: seq<Object>, rows: seq<Row>, ghost before: Table)
    requires kong.Valid() && Lists(rows, before) && Updated(before, kong.apis, inputs, |inputs|)
    modifies kong
    ensures kong.Valid() && old(kong.log) <= kong.log
    ensures Deleted(old(kong.apis), kong.apis, rows, |rows|, inputs)
    ensures Converged(before, inputs) ==> kong.log == old(kong.log)
  {
    ghost var full := kong.apis;
    assert Deleted(full, full, rows, 0, inputs);
    hide *;
    for n := 0 to |rows|
      invariant kong.Valid() && old(kong.log) <= kong.log
      invariant Deleted(full, kong.apis, rows, n, inputs)
      invariant Converged(before, inputs) ==> kong.log == old(kong.log)
    {
      DeleteStep(full, kong.apis, rows, n, inputs);
      ConvergedWants(before, rows, n, inputs);
      if !Wanted(rows[n].data.name, inputs) {
        NotYetDeleted(before, full, kong.apis, rows, n, inputs);
        kong.DeleteApi(rows[n].id);
      }
    }
  }

  lemma ConvergedWants(apis: Table, rows: seq<Row>, n: nat, inputs: seq<Object>)
    requires n < |rows| && Lists(rows, apis)
    ensures Converged(apis, inputs) ==> Wanted(rows[n].data.name, inputs)
  {
  }

  // A record with its name and all attributes, its id among them, that the inputs of its name do not send.
  ghost predicate OthersStay(before: Object, now: Object, inputs: seq<Object>)
  {
    && now.name == before.name
    && forall x :: !Sent(x) || !Mentions(inputs, |inputs|, before.name, x) ==> SameAttribute(now, before, x)
  }

  // What becomes of the records that were there before.
  ghost predicate Kept(before: Table, now: Table, inputs: seq<Object>)
  {
    forall i :: i in before ==>
      if Wanted(before[i].name, inputs) then i in now && OthersStay(before[i], now[i], inputs) else i !in now
  }

  lemma PatchedOthersStay(record: Object, inputs: seq<Object>, id: nat)
    requires "id" in record.attributes && record.attributes["id"] == Ident(id)
    ensures OthersStay(record, PatchedBy(record, inputs, |inputs|, id), inputs)
  {
    hide PatchedBy, Mentions;
    var data := PatchedBy(record, inputs, |inputs|, id);
    PatchedId(record, inputs, |inputs|, id);
    forall x | !Sent(x) || !Mentions(inputs, |inputs|, record.name, x) ensures SameAttribute(data, record, x) {
      if x != "id" { PatchedKeeps(record, inputs, |inputs|, id, x); }
    }
  }

  lemma DeletedKeeps(before: Table, full: Table, now: Table, rows: seq<Row>, inputs: seq<Object>)
    requires WellFormed(before) && Lists(rows, before)
    requires Updated(before, full, inputs, |inputs|) && Deleted(full, now, rows, |rows|, inputs)
    ensures Kept(before, now, inputs)
    ensures forall i :: i in now ==> Wanted(now[i].name, inputs)
    ensures forall i :: i in now ==> i in full && now[i] == full[i]
    ensures forall i :: i in full && i !in now ==> !Wanted(full[i].name, inputs)
  {
    hide Wanted, Has, Carries, PatchedBy, Converged, OthersStay;
    forall i | i in before
      ensures if Wanted(before[i].name, inputs) then i in now && OthersStay(before[i], now[i], inputs) else i !in now
    {
      assert HasRow(rows, i);
      PatchedOthersStay(before[i], inputs, i);
    }
  }

  lemma StrayDeleted(before: Table, full: Table, now: Table, defaults: map<string, Value>, inputs: seq<Object>)
    requires NothingStray(before, full, defaults, inputs) && forall i :: i in now ==> i in full && now[i] == full[i]
    ensures NothingStray(before, now, defaults, inputs)
  {
    hide OnlySent;
  }

  lemma DeletedConverges(before: Table, full: Table, now: Table, rows: seq<Row>, inputs: seq<Object>)
    requires WellFormed(before) && Lists(rows, before)
    requires Updated(before, full, inputs, |inputs|) && Deleted(full, now, rows, |rows|, inputs)
    ensures Converged(now, inputs)
  {
    DeletedKeeps(before, full, now, rows, inputs);
    hide Carries, PatchedBy;
    forall i | i in now ensures Carries(now[i], inputs, |inputs|) {
      if i in before { PatchedCarries(before[i], inputs, |inputs|, i); }
    }
    forall k | 0 <= k < |inputs| ensures Has(now, inputs[k].name) {
      assert Has(full, inputs[k].name);
      var i :| i in full && full[i].name == inputs[k].name;
      assert Wanted(full[i].name, inputs);
      assert now[i] == full[i];
    }
  }

  lemma DeletedRepeats(before: Table, full: Table, now: Table, rows: seq<Row>, inputs: seq<Object>)
    requires WellFormed(before) && Lists(rows, before) && Converged(before, inputs)
    requires Updated(before, full, inputs, |inputs|) && Deleted(full, now, rows, |rows|, inputs)
    ensures now == before
  {
    DeletedKeeps(before, full, now, rows, inputs);
    hide Wanted, Has, Carries, PatchedBy;
    forall i | i in before ensures i in now && now[i] == before[i] {
      PatchRepeats(before[i], inputs, i);
    }
  }

  // ---------------------------------------------------------------- the whole script

  /** save_apis up to the plugins: afterwards the server has exactly the wanted APIs, those that were there before
      under their old ids, and each with all its sanitised attributes and, if it is new, no others but the server's own.
      Run on such a server, it sends no POST and no DELETE and changes nothing.  It fails before any change if the
      server has too many APIs, and at a POST if a name that the server does not have is listed twice; then the records
      that were there are as before, and those of the inputs in front have been created. */
  method SaveApis(kong: Kong, inputs: seq<Object>) returns (r: Outcome)
    requires kong.Valid()
    modifies kong
    ensures kong.Valid() && old(kong.log) <= kong.log
    ensures r == (if |old(kong.apis)| > MAX_PAGE_SIZE then TooManyApis
                  else if MissingTwice(old(kong.apis), inputs, |inputs|) then Conflict else Done)
    ensures r == TooManyApis ==> kong.apis == old(kong.apis) && kong.log == old(kong.log)
    ensures r == Conflict ==> Extends(old(kong.apis), kong.apis)
    ensures r == Conflict ==> exists k :: StoppedAt(old(kong.apis), kong.apis, inputs, k)
    ensures r == Done ==> Converged(kong.apis, inputs) && Kept(old(kong.apis), kong.apis, inputs)
    ensures r != TooManyApis ==> NothingStray(old(kong.apis), kong.apis, kong.defaults, inputs)
    ensures r == Done && Converged(old(kong.apis), inputs) ==>
      kong.apis == old(kong.apis) && OnlyPatches(kong.log[|old(kong.log)|..])
  {
    hide *;
    ghost var before := kong.apis;
    WellFormedBefore(kong);
    if |kong.apis| > MAX_PAGE_SIZE {
      return TooManyApis;
    }
    var rows := kong.GetApis();
    r := CreateMissing(kong, inputs, rows);
    if r == Done {
      UpdateExisting(kong, inputs, rows, before);
      ghost var full := kong.apis;
      DeleteUnwanted(kong, inputs, rows, before);
      DeletedKeeps(before, full, kong.apis, rows, inputs);
      DeletedConverges(before, full, kong.apis, rows, inputs);
      StrayDeleted(before, full, kong.apis, kong.defaults, inputs);
      if Converged(before, inputs) { DeletedRepeats(before, full, kong.apis, rows, inputs); }
    }
  }

  lemma WellFormedBefore(kong: Kong)
    requires kong.Valid()
    ensures WellFormed(kong.apis)
  {
  }
}
