/** Flattening of nested metric documents in the Ambari exporter.

    The recursion keeps the path to the current dictionary on one list that all its calls share, and fills one
    dictionary of metrics. */
module AmbariCollector {

  // A decoded JSON document.  `Other` is everything that is neither a number nor a dictionary.
  datatype Json = Number(value: real) | Other | Dict(items: Entries)

  // The entries of a dictionary, in the order of items().
  datatype Entries = End | Entry(key: string, value: Json, rest: Entries)

  // ---------------------------------------------------------------- what flattening means

  // '_'.join(prefix)
  function Join(prefix: seq<string>): string
  {
    if prefix == [] then "" else if |prefix| == 1 then prefix[0] else prefix[0] + "_" + Join(prefix[1..])
  }

  // '{}_{}'.format('_'.join(prefix), k)
  function MetricName(prefix: seq<string>, k: string): string
  {
    Join(prefix) + "_" + k
  }

  // The numeric leaves below a prefix, in the order of the document.
  function Leaves(data: Entries, prefix: seq<string>): seq<(string, real)>
    decreases data
  {
    match data
    case End => []
    case Entry(k, v, rest) => LeavesOf(k, v, prefix) + Leaves(rest, prefix)
  }

  function LeavesOf(k: string, v: Json, prefix: seq<string>): seq<(string, real)>
    decreases v
  {
    match v
    case Dict(items) => Leaves(items, prefix + [k])
    case Number(x) => [(MetricName(prefix, k), x)]
    case Other => []
  }

  // metrics[name] = value for each leaf in turn
  function Assign(metrics: map<string, real>, leaves: seq<(string, real)>): map<string, real>
    decreases |leaves|
  {
    if leaves == [] then metrics else Assign(metrics[leaves[0].0 := leaves[0].1], leaves[1..])
  }

  lemma {:induction false} AssignAppend(metrics: map<string, real>, x: seq<(string, real)>, y: seq<(string, real)>)
    ensures Assign(metrics, x + y) == Assign(Assign(metrics, x), y)
    decreases |x|
  {
    if x == [] {
      assert x + y == y;
    } else {
      assert (x + y)[1..] == x[1..] + y;
      AssignAppend(metrics[x[0].0 := x[0].1], x[1..], y);
    }
  }

  // ---------------------------------------------------------------- leaves are the numbers at the ends of paths

  // Following a path of keys from a dictionary leads to number x.
  ghost predicate Leads(data: Entries, path: seq<string>, x: real)
    decreases data
  {
    match data
    case End => false
    case Entry(k, v, rest) => LeadsFrom(k, v, path, x) || Leads(rest, path, x)
  }

  ghost predicate LeadsFrom(k: string, v: Json, path: seq<string>, x: real)
    decreases v
  {
    path != [] && path[0] == k &&
    match v
    case Number(y) => path == [k] && x == y
    case Dict(items) => Leads(items, path[1..], x)
    case Other => false
  }

  // The name of the leaf at the end of a path below a prefix.
  function PathName(prefix: seq<string>, path: seq<string>): string
    requires path != []
  {
    var keys := prefix + path;
    MetricName(keys[..|keys| - 1], keys[|keys| - 1])
  }

  lemma {:induction false} JoinAppend(prefix: seq<string>, k: string)
    ensures Join(prefix + [k]) == if prefix == [] then k else Join(prefix) + "_" + k
  {
    if |prefix| > 1 {
      assert (prefix + [k])[1..] == prefix[1..] + [k];
      JoinAppend(prefix[1..], k);
    } else if |prefix| == 1 {
      assert (prefix + [k])[1..] == [k];
    }
  }

  /** The name is prefix and path joined by underscores, except that a leaf with no key above it gets one in front. */
  lemma PathNameIsJoin(prefix: seq<string>, path: seq<string>)
    requires path != []
    ensures PathName(prefix, path) == if prefix == [] && |path| == 1 then "_" + path[0] else Join(prefix + path)
  {
    assert Join([]) == "";
    hide Join;
    var keys := prefix + path;
    var front, last := keys[..|keys| - 1], keys[|keys| - 1];
    assert keys == front + [last];
    JoinAppend(front, last);
    if prefix == [] && |path| == 1 {
      assert front == [] && "" + "_" == "_";
    } else {
      assert front != [];
    }
  }

  /** The leaves are the numbers at the ends of paths of keys, under the names of those paths. */
  lemma {:induction false} LeavesArePaths(data: Entries, prefix: seq<string>, name: string, x: real)
    ensures (name, x) in Leaves(data, prefix) <==>
      exists path :: path != [] && Leads(data, path, x) && name == PathName(prefix, path)
    decreases data
  {
    hide PathName;
    match data
    case End =>
    case Entry(k, v, rest) =>
      LeavesArePaths(rest, prefix, name, x);
      LeavesOfArePaths(k, v, prefix, name, x);
      if (name, x) in LeavesOf(k, v, prefix) {
        var path :| path != [] && LeadsFrom(k, v, path, x) && name == PathName(prefix, path);
        assert Leads(data, path, x);
      }
      if (name, x) in Leaves(rest, prefix) {
        var path :| path != [] && Leads(rest, path, x) && name == PathName(prefix, path);
        assert Leads(data, path, x);
      }
      forall path | path != [] && Leads(data, path, x) && name == PathName(prefix, path)
        ensures (name, x) in Leaves(data, prefix)
      {
        assert LeadsFrom(k, v, path, x) || Leads(rest, path, x);
      }
  }

  lemma {:induction false} LeavesOfArePaths(k: string, v: Json, prefix: seq<string>, name: string, x: real)
    ensures (name, x) in LeavesOf(k, v, prefix) <==>
      exists path :: path != [] && LeadsFrom(k, v, path, x) && name == PathName(prefix, path)
    decreases v
  {
    match v
    case Other =>
    case Number(y) =>
      NameOfOne(prefix, k);
      assert x == y ==> LeadsFrom(k, v, [k], x);
    case Dict(items) =>
      LeavesArePaths(items, prefix + [k], name, x);
      hide PathName;
      if (name, x) in LeavesOf(k, v, prefix) {
        var path :| path != [] && Leads(items, path, x) && name == PathName(prefix + [k], path);
        NameBelow(prefix, k, path);
        assert ([k] + path)[1..] == path;
        assert LeadsFrom(k, v, [k] + path, x);
      }
      forall path | path != [] && LeadsFrom(k, v, path, x) && name == PathName(prefix, path)
        ensures (name, x) in LeavesOf(k, v, prefix)
      {
        LeadsSomewhere(items, path[1..], x);
        NameBelow(prefix, k, path[1..]);
        assert path == [k] + path[1..];
      }
  }

  lemma {:induction false} LeadsSomewhere(data: Entries, path: seq<string>, x: real)
    requires Leads(data, path, x)
    ensures path != []
  {
    match data
    case Entry(k, v, rest) =>
      if !LeadsFrom(k, v, path, x) { LeadsSomewhere(rest, path, x); }
  }

  lemma NameOfOne(prefix: seq<string>, k: string)
    ensures PathName(prefix, [k]) == MetricName(prefix, k)
  {
    assert (prefix + [k])[..|prefix|] == prefix;
  }

  lemma NameBelow(prefix: seq<string>, k: string, path: seq<string>)
    requires path != []
    ensures PathName(prefix, [k] + path) == PathName(prefix + [k], path)
  {
    assert prefix + ([k] + path) == prefix + [k] + path;
  }

  // Leaf i is the last one with this name.
  ghost predicate IsLast(leaves: seq<(string, real)>, i: int, name: string)
  {
    0 <= i < |leaves| && leaves[i].0 == name && forall j :: i < j < |leaves| ==> leaves[j].0 != name
  }

  /** Of several leaves with one name the last one counts; names without a leaf keep what they had. */
  lemma {:induction false} LastLeafWins(metrics: map<string, real>, leaves: seq<(string, real)>, name: string)
    ensures name in Assign(metrics, leaves) <==> name in metrics || exists i :: 0 <= i < |leaves| && leaves[i].0 == name
    ensures forall i :: IsLast(leaves, i, name) ==> Assign(metrics, leaves)[name] == leaves[i].1
    ensures (forall i :: 0 <= i < |leaves| ==> leaves[i].0 != name) && name in metrics
      ==> Assign(metrics, leaves)[name] == metrics[name]
  {
    if leaves != [] {
      var n := |leaves| - 1;
      var before := leaves[..n];
      LastLeafWins(metrics, before, name);
      assert leaves == before + [leaves[n]];
      AssignAppend(metrics, before, [leaves[n]]);
      AssignOne(Assign(metrics, before), leaves[n]);
      if exists i :: 0 <= i < |before| && before[i].0 == name {
        var i :| 0 <= i < |before| && before[i].0 == name;
        assert leaves[i].0 == name;
      }
    }
  }

  lemma AssignOne(metrics: map<string, real>, leaf: (string, real))
    ensures Assign(metrics, [leaf]) == metrics[leaf.0 := leaf.1]
  {
    assert [leaf][1..] == [];
  }

  // ---------------------------------------------------------------- the code

  predicate Found(rules: seq<string>, k: string, finds: (string, string) -> bool)
  {
    exists j :: 0 <= j < |rules| && finds(rules[j], k)
  }

  class Parser {
    var prefix: seq<string>
    var metrics: map<string, real>

    constructor (prefix: seq<string>)
      ensures this.prefix == prefix && metrics == map[]
    {
      this.prefix, metrics := prefix, map[];
    }

    /** _parse_metrics leaves the shared prefix as it found it and assigns the numeric leaves in order. */
    method ParseMetrics(data: Entries)
      modifies this
      ensures prefix == old(prefix)
      ensures metrics == Assign(old(metrics), Leaves(data, old(prefix)))
      decreases data
    {
      var left := data;
      while left.Entry?
        invariant left == data || left < data
        invariant prefix == old(prefix)
        invariant Assign(metrics, Leaves(left, prefix)) == Assign(old(metrics), Leaves(data, prefix))
        decreases left
      {
        var k, v := left.key, left.value;
        AssignAppend(metrics, LeavesOf(k, v, prefix), Leaves(left.rest, prefix));
        if v.Dict? {
          prefix := prefix + [k];
          ParseMetrics(v.items);
          if |prefix| > 0 {
            prefix := prefix[..|prefix| - 1];
          }
        } else {
          var metricName := MetricName(prefix, k);
          if v.Number? {
            AssignOne(metrics, (metricName, v.value));
            metrics := metrics[metricName := v.value];
          }
        }
        left := left.rest;
      }
    }

    /** _filter_by_rule deletes the keys that the rules select: with a white list those no rule finds, with a black list
        those some rule finds.  `finds` is re.search. */
    method FilterByRule(rules: seq<string>, isWhite: bool, finds: (string, string) -> bool)
      modifies this`metrics
      ensures metrics == map k | k in old(metrics) && Found(rules, k, finds) == isWhite :: old(metrics)[k]
    {
      var removeMetrics: set<string> := {};
      var left := metrics.Keys;
      while left != {}
        invariant left <= metrics.Keys
        invariant forall k :: k in removeMetrics <==> k in metrics.Keys - left && Found(rules, k, finds) != isWhite
        invariant metrics == old(metrics)
        decreases left
      {
        SomeKey(left);
        var k :| k in left;
        var found := false;
        for i := 0 to |rules|
          invariant !found ==> forall j :: 0 <= j < i ==> !finds(rules[j], k)
          invariant found ==> Found(rules, k, finds)
        {
          if finds(rules[i], k) {
            found := true;
            break;
          }
        }
        if found != isWhite {
          removeMetrics := removeMetrics + {k};
        }
        left := left - {k};
      }
      assert forall k :: k in metrics ==> (k in removeMetrics <==> Found(rules, k, finds) != isWhite);
      metrics := metrics - removeMetrics;
    }
  }

  lemma SomeKey(keys: set<string>)
    requires keys != {}
    ensures exists k :: k in keys
  {
    assert (forall k :: k !in keys) ==> keys == {};
  }

  // What the configured lists leave of the metrics; a missing list counts as empty, and an empty white list leaves the
  // decision to the black list.
  function Filtered(metrics: map<string, real>, white: seq<string>, black: seq<string>,
                    finds: (string, string) -> bool): map<string, real>
  {
    if white != [] then map k | k in metrics && Found(white, k, finds) :: metrics[k]
    else if black != [] then map k | k in metrics && !Found(black, k, finds) :: metrics[k]
    else metrics
  }

  /** A metric stays if and only if some rule of the white list finds it, whatever the black list says; without a white
      list, if no rule of the black list finds it. */
  lemma WhiteListDecides(metrics: map<string, real>, white: seq<string>, black: seq<string>,
                         finds: (string, string) -> bool, k: string)
    ensures k in Filtered(metrics, white, black, finds) <==>
      k in metrics && if white != [] then exists i :: 0 <= i < |white| && finds(white[i], k)
                      else forall i :: 0 <= i < |black| ==> !finds(black[i], k)
    ensures k in Filtered(metrics, white, black, finds) ==> Filtered(metrics, white, black, finds)[k] == metrics[k]
  {
  }

  /** _parse_with_filter: the filtered leaves of the document replace or join the metrics collected before. */
  method ParseWithFilter(data: Entries, prefix: seq<string>, metrics: map<string, real>, white: seq<string>,
                         black: seq<string>, finds: (string, string) -> bool) returns (r: map<string, real>)
    ensures r == metrics + Filtered(Assign(map[], Leaves(data, prefix)), white, black, finds)
  {
    var parser := new Parser(prefix);
    parser.ParseMetrics(data);
    if white != [] {
      parser.FilterByRule(white, true, finds);
    } else if black != [] {
      parser.FilterByRule(black, false, finds);
    }
    r := metrics + parser.metrics;
  }
}
