/** The Kafka topic exporter: one scrape receives metric lines from a channel that all scrapes share, remembers the last
    message of every partition, and commits those messages when it ends. */
module KafkaExporter {

  // A Kafka message; `value` stands for everything but its position.
  datatype Message = Message(partition: int, offset: int, value: int)

  // One line on the channel, tagged with its message and with the cluster that message came from.
  datatype Metric = Metric(line: string, id: Message, clusterId: nat)

  // The state of a lastReadMessage.
  datatype Table = Table(last: map<int, Message>, clusterId: nat)

  // A call of CommitMessages on the reader of a cluster.
  datatype Commit = Commit(reader: nat, message: Message)

  const NEW_TABLE: Table := Table(map[], 0)

  // Store keeps the first message seen at the highest offset of a partition.
  function Stored(t: Table, m: Message, clusterId: nat): Table
  {
    if m.partition in t.last && t.last[m.partition].offset >= m.offset then t
    else Table(t.last[m.partition := m], clusterId)
  }

  // Whether Store reports an error.
  predicate StoreFails(t: Table, m: Message)
  {
    m.partition in t.last
  }

  /** The text of the error speaks of a lower offset; Store reports it for a message that it takes as well, if and only
      if the partition is known with a lower offset.  The second part is an instance. */
  lemma ErrorForTaken(t: Table, m: Message, c: nat)
    ensures StoreFails(t, m) && Stored(t, m, c) != t ==> m.partition in t.last && t.last[m.partition].offset < m.offset
    ensures m.partition in t.last && t.last[m.partition].offset < m.offset ==>
      StoreFails(t, m) && Stored(t, m, c) != t && Stored(t, m, c).last[m.partition] == m
    ensures var known := Table(map[0 := Message(0, 1, 0)], 0);
      StoreFails(known, Message(0, 2, 0)) && Stored(known, Message(0, 2, 0), 0).last[0] == Message(0, 2, 0)
  {
    if m.partition in t.last && t.last[m.partition].offset < m.offset {
      assert Stored(t, m, c).last[m.partition] != t.last[m.partition];
    }
  }

  // The table of cluster c after a scrape received these lines.
  function TableAfter(received: seq<Metric>, c: nat): Table
  {
    if received == [] then NEW_TABLE
    else
      var n := |received| - 1;
      var t := TableAfter(received[..n], c);
      if received[n].clusterId == c then Stored(t, received[n].id, c) else t
  }

  // ---------------------------------------------------------------- the code

  class LastReadMessage {
    var last: map<int, Message>
    var clusterId: nat

    ghost function Contents(): Table
      reads this
    {
      Table(last, clusterId)
    }

    constructor ()
      ensures Contents() == NEW_TABLE
    {
      last, clusterId := map[], 0;
    }

    /** Store reports an error for every message of a partition it already knows, even when it takes the message. */
    method Store(message: Message, clusterId: nat) returns (error: bool)
      modifies this
      ensures Contents() == Stored(old(Contents()), message, clusterId)
      ensures error <==> StoreFails(old(Contents()), message)
    {
      if message.partition in last {
        if last[message.partition].offset < message.offset {
          last := last[message.partition := message];
          this.clusterId := clusterId;
        }
        return true;
      } else {
        last := last[message.partition := message];
        this.clusterId := clusterId;
      }
      error := false;
    }
  }

  // Whether a table has nothing that stops the commit: a message at offset 0 or one the broker refuses.
  ghost predicate Committable(t: Table, accepts: (nat, Message) -> bool)
  {
    forall p :: p in t.last ==> t.last[p].offset > 0 && accepts(t.clusterId, t.last[p])
  }

  ghost predicate FromTable(c: Commit, t: Table)
  {
    && c.message.partition in t.last && t.last[c.message.partition] == c.message
    && c.reader == t.clusterId && c.message.offset > 0
  }

  ghost predicate FromSomeTable(c: Commit, tables: seq<Table>)
  {
    exists k :: 0 <= k < |tables| && FromTable(c, tables[k])
  }

  // Committed messages are entries of the tables, at a positive offset, sent to the table's own reader.
  ghost predicate FromTables(commits: seq<Commit>, tables: seq<Table>)
  {
    forall i :: 0 <= i < |commits| ==> FromSomeTable(commits[i], tables)
  }

  ghost predicate FromReader(c: Commit, received: seq<Metric>, readers: nat)
  {
    exists k: nat :: k < readers && FromTable(c, TableAfter(received, k))
  }

  // What a scrape with this many readers may commit after it received these lines: entries of the tables they build.
  ghost predicate FromScrape(commits: seq<Commit>, received: seq<Metric>, readers: nat)
  {
    forall i :: 0 <= i < |commits| ==> FromReader(commits[i], received, readers)
  }

  // Every entry of every table was committed.
  ghost predicate AllCommitted(commits: seq<Commit>, received: seq<Metric>, readers: nat)
  {
    forall k: nat, p :: k < readers && p in TableAfter(received, k).last ==>
      Commit(TableAfter(received, k).clusterId, TableAfter(received, k).last[p]) in commits
  }

  // Tables index messages by their partition.
  ghost predicate Indexed(t: Table)
  {
    forall p :: p in t.last ==> t.last[p].partition == p
  }

  // Commits of entries of one table, in some order, each accepted and none made twice.
  ghost predicate SomeOf(part: seq<Commit>, t: Table, accepts: (nat, Message) -> bool)
  {
    && (forall i :: 0 <= i < |part| ==> FromTable(part[i], t) && accepts(part[i].reader, part[i].message))
    && forall i, j :: 0 <= i < j < |part| ==> part[i] != part[j]
  }

  ghost predicate AllOf(part: seq<Commit>, t: Table)
  {
    forall p :: p in t.last ==> Commit(t.clusterId, t.last[p]) in part
  }

  /** What was committed, table by table: all entries of tables without an obstacle, up to the first table with one, of
      which some entries may be committed and behind which nothing is. */
  ghost predicate InOrder(parts: seq<seq<Commit>>, tables: seq<Table>, accepts: (nat, Message) -> bool, ok: bool)
  {
    && |parts| <= |tables|
    && (forall k :: 0 <= k < |parts| ==> SomeOf(parts[k], tables[k], accepts))
    && (forall k :: 0 <= k < |parts| && (ok || k < |parts| - 1) ==>
          Committable(tables[k], accepts) && AllOf(parts[k], tables[k]))
    && if ok then |parts| == |tables| else |parts| > 0 && !Committable(tables[|parts| - 1], accepts)
  }

  function Flatten(parts: seq<seq<Commit>>): seq<Commit>
  {
    if parts == [] then [] else Flatten(parts[..|parts| - 1]) + parts[|parts| - 1]
  }

  lemma FlattenNext(parts: seq<seq<Commit>>, part: seq<Commit>)
    ensures Flatten(parts + [part]) == Flatten(parts) + part
  {
    assert (parts + [part])[..|parts|] == parts;
  }

  // One more table; fine says whether it has no obstacle.
  lemma NextPart(parts: seq<seq<Commit>>, part: seq<Commit>, tables: seq<Table>, accepts: (nat, Message) -> bool,
                 fine: bool)
    requires |parts| < |tables| && InOrder(parts, tables[..|parts|], accepts, true)
    requires SomeOf(part, tables[|parts|], accepts) && (fine ==> AllOf(part, tables[|parts|]))
    requires fine <==> Committable(tables[|parts|], accepts)
    ensures if fine then InOrder(parts + [part], tables[..|parts| + 1], accepts, true)
            else InOrder(parts + [part], tables, accepts, false)
  {
    hide SomeOf, AllOf, Committable;
    var n := |parts|;
    forall k | 0 <= k < n
      ensures SomeOf(parts[k], tables[k], accepts) && Committable(tables[k], accepts) && AllOf(parts[k], tables[k])
    {
      assert tables[..n][k] == tables[k];
    }
  }

  // The tables a scrape has built.
  function TablesAfter(received: seq<Metric>, readers: nat): (tables: seq<Table>)
    ensures |tables| == readers && forall k :: 0 <= k < readers ==> tables[k] == TableAfter(received, k)
  {
    seq(readers, k requires 0 <= k < readers => TableAfter(received, k))
  }

  lemma SomeKey(keys: set<int>)
    requires keys != {}
    ensures exists k :: k in keys
  {
    assert (forall k :: k !in keys) ==> keys == {};
  }

  // The entries of one table, in whatever order the map yields them.
  method CommitTable(t: Table, accepts: (nat, Message) -> bool) returns (commits: seq<Commit>, ok: bool)
    requires Indexed(t)
    ensures SomeOf(commits, t, accepts)
    ensures ok <==> Committable(t, accepts)
    ensures ok ==> AllOf(commits, t)
  {
    commits := [];
    var left := t.last.Keys;
    while left != {}
      invariant left <= t.last.Keys
      invariant SomeOf(commits, t, accepts)
      invariant forall i :: 0 <= i < |commits| ==> commits[i].message.partition !in left
      invariant forall p :: p in t.last.Keys - left ==>
        t.last[p].offset > 0 && accepts(t.clusterId, t.last[p]) && Commit(t.clusterId, t.last[p]) in commits
      decreases left
    {
      SomeKey(left);
      var k :| k in left;
      var message := t.last[k];
      if message.offset <= 0 {
        return commits, false;
      }
      if !accepts(t.clusterId, message) {
        return commits, false;
      }
      commits := commits + [Commit(t.clusterId, message)];
      left := left - {k};
    }
    ok := true;
  }

  /** commitMessage stops at the first entry it cannot commit; it succeeds exactly when no table has such an entry, and
      then every entry has been committed.  Otherwise all entries of the tables before the one with such an entry have,
      some of that table, and none behind. */
  method CommitMessage(tables: seq<Table>, accepts: (nat, Message) -> bool)
    returns (commits: seq<Commit>, ok: bool, ghost parts: seq<seq<Commit>>)
    requires forall k :: 0 <= k < |tables| ==> Indexed(tables[k])
    ensures commits == Flatten(parts) && InOrder(parts, tables, accepts, ok)
    ensures FromTables(commits, tables)
    ensures ok <==> forall k :: 0 <= k < |tables| ==> Committable(tables[k], accepts)
    ensures ok ==> forall k, p :: 0 <= k < |tables| && p in tables[k].last ==>
      Commit(tables[k].clusterId, tables[k].last[p]) in commits
  {
    commits, parts := [], [];
    for n := 0 to |tables|
      invariant |parts| == n && commits == Flatten(parts) && InOrder(parts, tables[..n], accepts, true)
      invariant FromTables(commits, tables)
      invariant forall k :: 0 <= k < n ==> Committable(tables[k], accepts)
      invariant forall k, p :: 0 <= k < n && p in tables[k].last ==>
        Commit(tables[k].clusterId, tables[k].last[p]) in commits
    {
      var some, fine := CommitTable(tables[n], accepts);
      forall i | 0 <= i < |some| ensures FromSomeTable(some[i], tables) { assert FromTable(some[i], tables[n]); }
      FlattenNext(parts, some);
      NextPart(parts, some, tables, accepts, fine);
      commits, parts := commits + some, parts + [some];
      if !fine {
        return commits, false, parts;
      }
    }
    assert tables[..|tables|] == tables;
    ok := true;
  }

  /** serve, from its first receive on: the lines written are the lines received, and what is committed comes from the
      tables they build, in the order of the readers and up to the first table with an obstacle. */
  method Serve(received: seq<Metric>, readers: nat, accepts: (nat, Message) -> bool)
    returns (written: seq<string>, commits: seq<Commit>, ghost parts: seq<seq<Commit>>)
    requires forall i :: 0 <= i < |received| ==> received[i].clusterId < readers
    ensures |written| == |received| && forall i :: 0 <= i < |received| ==> written[i] == received[i].line
    ensures commits == Flatten(parts)
    ensures InOrder(parts, TablesAfter(received, readers), accepts,
                    forall k: nat :: k < readers ==> Committable(TableAfter(received, k), accepts))
    ensures FromScrape(commits, received, readers)
    ensures (forall k: nat :: k < readers ==> Committable(TableAfter(received, k), accepts)) ==>
      AllCommitted(commits, received, readers)
  {
    var lastReadMessages: seq<LastReadMessage> := [];
    for k := 0 to readers
      invariant |lastReadMessages| == k && fresh(lastReadMessages)
      invariant forall i, j :: 0 <= i < j < k ==> lastReadMessages[i] != lastReadMessages[j]
      invariant forall i :: 0 <= i < k ==> lastReadMessages[i].Contents() == NEW_TABLE
    {
      var lastReadMessage := new LastReadMessage();
      lastReadMessages := lastReadMessages + [lastReadMessage];
    }
    written := [];
    for n := 0 to |received|
      invariant |written| == n && forall i :: 0 <= i < n ==> written[i] == received[i].line
      invariant forall k :: 0 <= k < readers ==> lastReadMessages[k].Contents() == TableAfter(received[..n], k)
    {
      var message := received[n];
      written := written + [message.line];
      assert received[..n + 1][..n] == received[..n];
      var error := lastReadMessages[message.clusterId].Store(message.id, message.clusterId);
    }
    assert received[..|received|] == received;
    hide TableAfter;
    var tables: seq<Table> := [];
    for k := 0 to readers
      invariant |tables| == k && forall i :: 0 <= i < k ==> tables[i] == TableAfter(received, i)
    {
      tables := tables + [Table(lastReadMessages[k].last, lastReadMessages[k].clusterId)];
    }
    forall k | 0 <= k < |tables| ensures Indexed(tables[k]) { TableIsLatest(received, k); }
    var ok;
    assert tables == TablesAfter(received, readers);
    commits, ok, parts := CommitMessage(tables, accepts);
    CommitsAreOf(received, readers, tables, commits);
    if forall k: nat :: k < readers ==> Committable(TableAfter(received, k), accepts) {
      AllAreCommitted(received, readers, tables, commits);
    }
  }

  lemma CommitsAreOf(received: seq<Metric>, readers: nat, tables: seq<Table>, commits: seq<Commit>)
    requires |tables| == readers && (forall i :: 0 <= i < readers ==> tables[i] == TableAfter(received, i))
    requires FromTables(commits, tables)
    ensures FromScrape(commits, received, readers)
  {
    hide TableAfter, FromTable;
    forall i | 0 <= i < |commits| ensures FromReader(commits[i], received, readers) {
      assert FromSomeTable(commits[i], tables);
      var k :| 0 <= k < |tables| && FromTable(commits[i], tables[k]);
      assert FromTable(commits[i], TableAfter(received, k));
    }
  }

  lemma AllAreCommitted(received: seq<Metric>, readers: nat, tables: seq<Table>, commits: seq<Commit>)
    requires |tables| == readers && (forall i :: 0 <= i < readers ==> tables[i] == TableAfter(received, i))
    requires forall k, p :: 0 <= k < |tables| && p in tables[k].last ==>
      Commit(tables[k].clusterId, tables[k].last[p]) in commits
    ensures AllCommitted(commits, received, readers)
  {
    hide TableAfter;
    forall k: nat, p | k < readers && p in TableAfter(received, k).last
      ensures Commit(TableAfter(received, k).clusterId, TableAfter(received, k).last[p]) in commits
    {
      assert p in tables[k].last;
    }
  }

  // ---------------------------------------------------------------- what a table holds

  // The message of line i belongs to cluster c and partition p.
  predicate At(received: seq<Metric>, i: int, c: nat, p: int)
  {
    0 <= i < |received| && received[i].clusterId == c && received[i].id.partition == p
  }

  /** For every partition the table holds a message of a received line, at the largest offset of all of them, and it
      knows the cluster. */
  lemma {:induction false} TableIsLatest(received: seq<Metric>, c: nat)
    ensures Indexed(TableAfter(received, c))
    ensures forall p :: p in TableAfter(received, c).last <==> exists i :: At(received, i, c, p)
    ensures forall p :: p in TableAfter(received, c).last ==>
      exists i :: At(received, i, c, p) && received[i].id == TableAfter(received, c).last[p]
    ensures forall p, i :: At(received, i, c, p) ==> received[i].id.offset <= TableAfter(received, c).last[p].offset
    ensures TableAfter(received, c).last != map[] ==> TableAfter(received, c).clusterId == c
  {
    if received != [] {
      var n := |received| - 1;
      var before := received[..n];
      var t := TableAfter(received, c);
      TableIsLatest(before, c);
      assert forall i, p :: At(received, i, c, p) <==> At(before, i, c, p) || (i == n && At(received, n, c, p));
      forall p | p in t.last ensures exists i :: At(received, i, c, p) && received[i].id == t.last[p] {
        if p in TableAfter(before, c).last && t.last[p] == TableAfter(before, c).last[p] {
          var i :| At(before, i, c, p) && before[i].id == TableAfter(before, c).last[p];
          assert At(received, i, c, p) && received[i].id == t.last[p];
        } else {
          assert At(received, n, c, p) && received[n].id == t.last[p];
        }
      }
    }
  }

  /** The offsets of the final table do not depend on the order in which the messages were stored. */
  lemma OrderDoesNotMatter(received: seq<Metric>, shuffled: seq<Metric>, c: nat)
    requires multiset(received) == multiset(shuffled)
    ensures var t, u := TableAfter(received, c), TableAfter(shuffled, c);
      && t.last.Keys == u.last.Keys
      && forall p :: p in t.last ==> t.last[p].offset == u.last[p].offset
  {
    TableIsLatest(received, c);
    TableIsLatest(shuffled, c);
    SameLines(received, shuffled, c);
    SameLines(shuffled, received, c);
  }

  // What one order of the lines yields bounds what the other yields.
  lemma SameLines(received: seq<Metric>, shuffled: seq<Metric>, c: nat)
    requires multiset(received) == multiset(shuffled)
    ensures var t, u := TableAfter(received, c), TableAfter(shuffled, c);
      forall p :: p in t.last ==> p in u.last && t.last[p].offset <= u.last[p].offset
  {
    TableIsLatest(received, c);
    TableIsLatest(shuffled, c);
    var t, u := TableAfter(received, c), TableAfter(shuffled, c);
    forall p | p in t.last ensures p in u.last && t.last[p].offset <= u.last[p].offset {
      var i :| At(received, i, c, p) && received[i].id == t.last[p];
      assert received[i] in multiset(received);
      assert received[i] in shuffled;
      var j :| 0 <= j < |shuffled| && shuffled[j] == received[i];
      assert At(shuffled, j, c, p);
    }
  }

  // ---------------------------------------------------------------- commit safety over all interleavings

  // A committed message has the largest offset of its cluster and partition among the lines the scrape wrote.
  ghost predicate Latest(received: seq<Metric>, c: Commit)
  {
    && (exists i :: At(received, i, c.reader, c.message.partition) && received[i].id == c.message)
    && forall i :: At(received, i, c.reader, c.message.partition) ==> received[i].id.offset <= c.message.offset
  }

  /** A commit that the code takes from the table of some reader is the latest of that reader's lines. */
  lemma TableCommitIsLatest(c: Commit, received: seq<Metric>, readers: nat)
    requires FromReader(c, received, readers)
    ensures c.reader < readers && c.message.offset > 0 && Latest(received, c)
  {
    var k: nat :| k < readers && FromTable(c, TableAfter(received, k));
    TableIsLatest(received, k);
    assert c.reader == k;
  }

  // A goroutine that has lines of one message left to send.
  datatype Sender = Sender(cluster: nat, message: Message, lines: seq<string>)

  datatype Scrape = Scrape(active: bool, received: seq<Metric>)

  datatype System = System(
    fetched: set<(nat, Message)>,
    senders: seq<Sender>,
    scrapes: seq<Scrape>,
    committed: seq<(nat, Commit)>)

  datatype Action =
    | Begin
    | Fetch(cluster: nat, message: Message, lines: seq<string>)
    | Transfer(sender: nat, scrape: nat)
    | GiveUp(sender: nat)
    | End(scrape: nat, commits: seq<Commit>)

  const INITIAL: System := System({}, [], [], [])

  /** One step of the exporter with a number of readers: a request arrives; a fetcher hands a message to a new
      goroutine; a goroutine and a scrape, not necessarily the one it was started for, meet at the channel; a
      goroutine is cancelled; or a scrape commits entries of its tables and ends.  Actions that are not possible
      change nothing. */
  ghost function Step(s: System, a: Action, readers: nat): System
  {
    match a
    case Begin => s.(scrapes := s.scrapes + [Scrape(true, [])])
    case Fetch(c, m, lines) =>
      if c < readers then s.(fetched := s.fetched + {(c, m)}, senders := s.senders + [Sender(c, m, lines)]) else s
    case Transfer(g, k) =>
      if g < |s.senders| && k < |s.scrapes| && s.scrapes[k].active && s.senders[g].lines != [] then
        var from := s.senders[g];
        var metric := Metric(from.lines[0], from.message, from.cluster);
        s.(senders := s.senders[g := from.(lines := from.lines[1..])],
           scrapes := s.scrapes[k := s.scrapes[k].(received := s.scrapes[k].received + [metric])])
      else s
    case GiveUp(g) =>
      if g < |s.senders| then s.(senders := s.senders[..g] + s.senders[g + 1..]) else s
    case End(k, commits) =>
      if k < |s.scrapes| && s.scrapes[k].active && FromScrape(commits, s.scrapes[k].received, readers) then
        s.(scrapes := s.scrapes[k := s.scrapes[k].(active := false)],
           committed := s.committed + seq(|commits|, i requires 0 <= i < |commits| => (k, commits[i])))
      else s
  }

  ghost function Run(actions: seq<Action>, readers: nat): System
  {
    if actions == [] then INITIAL
    else Step(Run(actions[..|actions| - 1], readers), actions[|actions| - 1], readers)
  }

  ghost predicate HonestLines(received: seq<Metric>, fetched: set<(nat, Message)>)
  {
    forall i :: 0 <= i < |received| ==> (received[i].clusterId, received[i].id) in fetched
  }

  // Senders and received lines carry messages that the reader of their cluster delivered.
  ghost predicate Honest(s: System, readers: nat)
  {
    && (forall f :: f in s.fetched ==> f.0 < readers)
    && (forall g :: 0 <= g < |s.senders| ==> (s.senders[g].cluster, s.senders[g].message) in s.fetched)
    && (forall k :: 0 <= k < |s.scrapes| ==> HonestLines(s.scrapes[k].received, s.fetched))
  }

  // A commit of scrape k is final: the scrape has ended, and the commit is the latest of what it wrote.
  ghost predicate Safe(s: System, k: nat, c: Commit)
  {
    && k < |s.scrapes| && !s.scrapes[k].active
    && (c.reader, c.message) in s.fetched
    && c.message.offset > 0
    && Latest(s.scrapes[k].received, c)
  }

  ghost predicate Inv(s: System, readers: nat)
  {
    Honest(s, readers) && forall i :: 0 <= i < |s.committed| ==> Safe(s, s.committed[i].0, s.committed[i].1)
  }

  lemma StepKeepsInv(s: System, a: Action, readers: nat)
    requires Inv(s, readers)
    ensures Inv(Step(s, a, readers), readers)
  {
    hide Latest, FromReader;
    var t := Step(s, a, readers);
    match a
    case Begin =>
    case Fetch(c, m, lines) =>
    case Transfer(g, k) =>
      forall x | 0 <= x < |t.scrapes| ensures HonestLines(t.scrapes[x].received, t.fetched) {
        assert HonestLines(s.scrapes[x].received, s.fetched);
      }
    case GiveUp(g) =>
    case End(k, commits) =>
      if t != s {
        forall i | |s.committed| <= i < |t.committed| ensures Safe(t, t.committed[i].0, t.committed[i].1) {
          var c := commits[i - |s.committed|];
          assert t.committed[i] == (k, c);
          TableCommitIsLatest(c, s.scrapes[k].received, readers);
          CommitWasFetched(s, k, c, readers);
        }
        forall i | 0 <= i < |s.committed| ensures Safe(t, t.committed[i].0, t.committed[i].1) {
          assert Safe(s, s.committed[i].0, s.committed[i].1);
        }
      }
  }

  lemma CommitWasFetched(s: System, k: nat, c: Commit, readers: nat)
    requires Honest(s, readers) && k < |s.scrapes| && Latest(s.scrapes[k].received, c)
    ensures (c.reader, c.message) in s.fetched
  {
    var received := s.scrapes[k].received;
    var i :| At(received, i, c.reader, c.message.partition) && received[i].id == c.message;
    assert HonestLines(received, s.fetched);
  }

  /** In every run, however fetches, sends, receives and overlapping scrapes interleave: a commit goes to the reader
      that delivered the message, for a message whose line the committing scrape wrote, at the largest offset that
      scrape wrote for the cluster and partition. */
  lemma {:induction false} CommitSafety(actions: seq<Action>, readers: nat, i: nat)
    requires i < |Run(actions, readers).committed|
    ensures var s := Run(actions, readers); Safe(s, s.committed[i].0, s.committed[i].1)
  {
    RunKeepsInv(actions, readers);
  }

  /** What a scrape has received in a run is what serve can work on: with the commits of `Serve` it can end. */
  lemma ScrapesCanEnd(actions: seq<Action>, readers: nat, k: nat, commits: seq<Commit>)
    requires k < |Run(actions, readers).scrapes| && Run(actions, readers).scrapes[k].active
    requires FromScrape(commits, Run(actions, readers).scrapes[k].received, readers)
    ensures var received := Run(actions, readers).scrapes[k].received;
      forall i :: 0 <= i < |received| ==> received[i].clusterId < readers
    ensures var s := Step(Run(actions, readers), End(k, commits), readers);
      !s.scrapes[k].active && |s.committed| == |Run(actions, readers).committed| + |commits|
  {
    hide Run, FromScrape;
    RunKeepsInv(actions, readers);
    var s := Run(actions, readers);
    var received := s.scrapes[k].received;
    assert HonestLines(received, s.fetched);
    forall i | 0 <= i < |received| ensures received[i].clusterId < readers {
      assert (received[i].clusterId, received[i].id) in s.fetched;
    }
  }

  lemma {:induction false} RunKeepsInv(actions: seq<Action>, readers: nat)
    ensures Inv(Run(actions, readers), readers)
  {
    if actions != [] {
      var n := |actions| - 1;
      RunKeepsInv(actions[..n], readers);
      StepKeepsInv(Run(actions[..n], readers), actions[n], readers);
    }
  }

  // ---------------------------------------------------------------- when nothing is overtaken

  // A reader fetches in the order of offsets, and only when the lines of what it fetched before have been transferred;
  // goroutines are cancelled only when they have nothing left.
  ghost predicate OneByOne(s: System, a: Action)
  {
    match a
    case Fetch(c, m, _) =>
      && (forall g :: 0 <= g < |s.senders| && s.senders[g].cluster == c ==> s.senders[g].lines == [])
      && (forall f :: f in s.fetched && f.0 == c && f.1.partition == m.partition ==> f.1.offset < m.offset)
    case GiveUp(g) => g < |s.senders| ==> s.senders[g].lines == []
    case _ => true
  }

  ghost predicate AllOneByOne(actions: seq<Action>, readers: nat)
  {
    forall n: nat :: n < |actions| ==> OneByOne(Run(actions[..n], readers), actions[n])
  }

  // A goroutine with lines left has the message at the largest offset fetched.
  ghost predicate NothingOvertakes(s: System)
  {
    forall g, f :: 0 <= g < |s.senders| && s.senders[g].lines != [] && f in s.fetched
      && f.0 == s.senders[g].cluster && f.1.partition == s.senders[g].message.partition
      ==> f.1.offset <= s.senders[g].message.offset
  }

  ghost predicate Written(s: System, metric: Metric)
  {
    exists k :: 0 <= k < |s.scrapes| && metric in s.scrapes[k].received
  }

  predicate Holds(sender: Sender, metric: Metric)
  {
    sender.cluster == metric.clusterId && sender.message == metric.id && metric.line in sender.lines
  }

  ghost predicate Pending(s: System, metric: Metric)
  {
    exists g :: 0 <= g < |s.senders| && Holds(s.senders[g], metric)
  }

  predicate Fetches(a: Action, metric: Metric)
  {
    a.Fetch? && a.cluster == metric.clusterId && a.message == metric.id && metric.line in a.lines
  }

  // The line was fetched in a run.
  ghost predicate Fetched(actions: seq<Action>, readers: nat, metric: Metric)
  {
    metric.clusterId < readers && exists j :: 0 <= j < |actions| && Fetches(actions[j], metric)
  }

  lemma StepKeepsOrder(s: System, a: Action, readers: nat)
    requires NothingOvertakes(s) && OneByOne(s, a)
    ensures NothingOvertakes(Step(s, a, readers))
  {
    hide FromScrape;
  }

  // A step neither loses a line nor forgets where it is.
  lemma StepKeepsLine(s: System, a: Action, readers: nat, metric: Metric)
    requires (Written(s, metric) || Pending(s, metric)) && OneByOne(s, a)
    ensures Written(Step(s, a, readers), metric) || Pending(Step(s, a, readers), metric)
  {
    hide FromScrape;
    var t := Step(s, a, readers);
    if Written(s, metric) {
      var k :| 0 <= k < |s.scrapes| && metric in s.scrapes[k].received;
      assert metric in t.scrapes[k].received;
    } else {
      var g :| 0 <= g < |s.senders| && Holds(s.senders[g], metric);
      if a.Transfer? && t != s && a.sender == g {
        var lines := s.senders[g].lines;
        assert lines == [lines[0]] + lines[1..];
        if lines[0] == metric.line {
          assert metric in t.scrapes[a.scrape].received;
        } else {
          assert Holds(t.senders[g], metric);
        }
      } else if a.GiveUp? && t != s && a.sender < g {
        assert Holds(t.senders[g - 1], metric);
      } else {
        assert Holds(t.senders[g], metric);
      }
    }
  }

  lemma FetchIsPending(s: System, a: Action, readers: nat, metric: Metric)
    requires Fetches(a, metric) && metric.clusterId < readers
    ensures Pending(Step(s, a, readers), metric)
  {
    var t := Step(s, a, readers);
    assert Holds(t.senders[|s.senders|], metric);
  }

  lemma {:induction false} RunKeepsLines(actions: seq<Action>, readers: nat, metric: Metric)
    requires AllOneByOne(actions, readers)
    ensures NothingOvertakes(Run(actions, readers))
    ensures Fetched(actions, readers, metric) ==>
      Written(Run(actions, readers), metric) || Pending(Run(actions, readers), metric)
  {
    hide Step, OneByOne, NothingOvertakes, Written, Pending;
    if actions == [] {
      assert NothingOvertakes(INITIAL) by { InitiallyInOrder(); }
    } else {
      var n := |actions| - 1;
      var before, a := actions[..n], actions[n];
      assert forall m: nat :: m < n ==> before[..m] == actions[..m];
      RunKeepsLines(before, readers, metric);
      StepKeepsOrder(Run(before, readers), a, readers);
      if Fetched(actions, readers, metric) {
        if Fetched(before, readers, metric) {
          StepKeepsLine(Run(before, readers), a, readers, metric);
        } else {
          LastFetched(actions, readers, metric);
          FetchIsPending(Run(before, readers), a, readers, metric);
        }
      }
    }
  }

  lemma InitiallyInOrder()
    ensures NothingOvertakes(INITIAL)
  {
  }

  lemma LastFetched(actions: seq<Action>, readers: nat, metric: Metric)
    requires actions != [] && Fetched(actions, readers, metric)
    ensures var n := |actions| - 1; Fetched(actions[..n], readers, metric) || Fetches(actions[n], metric)
  {
    var n := |actions| - 1;
    var j :| 0 <= j < |actions| && Fetches(actions[j], metric);
    if j < n { assert actions[..n][j] == actions[j]; }
  }

  /** In a run in which every reader goes one by one, no offset is committed before all lines of the lower offsets that
      the reader fetched from the partition have been written. */
  lemma LowerOffsetsWritten(actions: seq<Action>, readers: nat, i: nat, metric: Metric)
    requires AllOneByOne(actions, readers) && i < |Run(actions, readers).committed| && Fetched(actions, readers, metric)
    requires var c := Run(actions, readers).committed[i].1;
      c.reader == metric.clusterId && c.message.partition == metric.id.partition && metric.id.offset < c.message.offset
    ensures Written(Run(actions, readers), metric)
  {
    hide Run, AllOneByOne, Fetched, Latest;
    var s := Run(actions, readers);
    RunKeepsLines(actions, readers, metric);
    CommitSafety(actions, readers, i);
    var c := s.committed[i].1;
    assert (c.reader, c.message) in s.fetched;
  }

  /** A higher offset may be committed before a lower one was written: goroutines overtake each other. */
  lemma LowerOffsetOvertaken(p: int, line: string)
    ensures var low, high := Message(p, 1, 0), Message(p, 2, 0);
      var actions := [Begin, Fetch(0, low, [line]), Fetch(0, high, [line]), Transfer(1, 0), End(0, [Commit(0, high)])];
      var s := Run(actions, 1);
      s.committed == [(0, Commit(0, high))] && s.senders != [] && s.senders[0] == Sender(0, low, [line])
  {
    hide Run, FromScrape;
    var low, high := Message(p, 1, 0), Message(p, 2, 0);
    var a := [Begin, Fetch(0, low, [line]), Fetch(0, high, [line]), Transfer(1, 0), End(0, [Commit(0, high)])];
    RunStep(a, 1, 0);
    RunStep(a, 1, 1);
    RunStep(a, 1, 2);
    RunStep(a, 1, 3);
    RunStep(a, 1, 4);
    assert a[..5] == a;
    NothingRun(a, 1);
    var s3 := Run(a[..3], 1);
    assert s3.senders == [Sender(0, low, [line]), Sender(0, high, [line])] && s3.scrapes == [Scrape(true, [])];
    var s4 := Run(a[..4], 1);
    var received := [Metric(line, high, 0)];
    assert s4 == Step(s3, Transfer(1, 0), 1);
    assert s3.senders[1].lines[0] == line && [] + received == received;
    assert s4.scrapes == [Scrape(true, received)] && s4.senders[0] == Sender(0, low, [line]);
    OneLineCommit(received, p);
  }

  lemma OneLineCommit(received: seq<Metric>, p: int)
    requires |received| == 1 && received[0].id == Message(p, 2, 0) && received[0].clusterId == 0
    ensures FromScrape([Commit(0, Message(p, 2, 0))], received, 1)
  {
    assert received == [] + [received[0]] && TableAfter(received[..0], 0) == NEW_TABLE;
    assert FromTable(Commit(0, Message(p, 2, 0)), TableAfter(received, 0));
  }

  lemma NothingRun(a: seq<Action>, readers: nat)
    ensures Run(a[..0], readers) == INITIAL
  {
  }

  lemma RunStep(a: seq<Action>, readers: nat, n: nat)
    requires n < |a|
    ensures Run(a[..n + 1], readers) == Step(Run(a[..n], readers), a[n], readers)
  {
    hide Step;
    assert a[..n + 1][..n] == a[..n];
  }
}
