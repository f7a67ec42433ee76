/** The GeoIP2 module's databases: a cache of the last lookup, and reloading of changed files between requests.

    The database files on disk go through generations; `Lookup` gives what a generation answers for a 16-byte address.
    Handles stand for the memory maps that are open. */
module GeoIp {

  type Address = nat

  // What a lookup answers; a failed lookup counts as not found.
  datatype Answer = NotFound | Found(entry: int)

  // What the file system and MMDB_open say when a database is checked.
  datatype Disk = Disk(statOk: bool, mtime: int, openOk: bool, handle: nat, generation: nat)

  // The cache, and when and in which generation it was filled.
  datatype CacheState = CacheState(address: Address, result: Answer, filled: bool, filledIn: nat, filledAt: nat)

  // What a reload can change.
  datatype Status = Status(handle: nat, generation: nat, lastCheck: int, lastChange: int)

  // Whether the file is looked at, and whether what is found there is installed.
  predicate Due(s: Status, checkInterval: int, now: int)
  {
    checkInterval != 0 && s.lastCheck + checkInterval <= now
  }

  predicate Renews(s: Status, checkInterval: int, now: int, disk: Disk)
  {
    Due(s, checkInterval, now) && disk.statOk && s.lastChange < disk.mtime && disk.openOk
  }

  // Handle, generation and time of change go together.
  function Renewed(s: Status, checkInterval: int, now: int, disk: Disk): Status
  {
    var checked := if Due(s, checkInterval, now) then now else s.lastCheck;
    if Renews(s, checkInterval, now, disk) then Status(disk.handle, disk.generation, checked, disk.mtime)
    else s.(lastCheck := checked)
  }

  datatype State = State(status: Status, checkInterval: int, cache: CacheState, installed: set<nat>, reloads: nat)

  // A database after its turn in a reload: the cache is as it was.
  function AfterReload(s: State, now: int, disk: Disk): State
  {
    var status := Renewed(s.status, s.checkInterval, now, disk);
    var more := if Renews(s.status, s.checkInterval, now, disk) then 1 else 0;
    s.(status := status, installed := s.installed + {status.generation}, reloads := s.reloads + more)
  }

  // The turn of a database in a reload keeps its interval and its cache, and never takes last_change back; unless it is
  // renewed only the time of the check may change.
  ghost predicate Turned(s: State, t: State, now: int, disk: Disk)
  {
    && t == AfterReload(s, now, disk)
    && t.cache == s.cache && t.checkInterval == s.checkInterval && s.installed <= t.installed
    && s.status.lastChange <= t.status.lastChange
    && (!Renews(s.status, s.checkInterval, now, disk) ==> t.status == s.status.(lastCheck := t.status.lastCheck))
  }

  lemma ReloadKeeps(s: State, now: int, disk: Disk)
    ensures Turned(s, AfterReload(s, now, disk), now, disk)
  {
  }

  /** A renewal settles the matter: a file that is not newer than the one installed is not installed again, however
      often it is looked at, and the file is not looked at before the interval is over. */
  lemma RenewalSettles(s: State, now: int, disk: Disk, later: int, again: Disk)
    requires Renews(s.status, s.checkInterval, now, disk)
    ensures var t := AfterReload(s, now, disk);
      && t.status.handle == disk.handle && t.status.generation == disk.generation
      && (again.mtime <= disk.mtime ==> !Renews(t.status, t.checkInterval, later, again))
      && (disk.mtime < again.mtime && again.statOk && again.openOk && s.checkInterval + now <= later ==>
            Renews(t.status, t.checkInterval, later, again))
      && (later < now + s.checkInterval ==> !Due(t.status, t.checkInterval, later))
  {
  }

  /** What keeps a database as it is: no interval, an interval not yet over, and a file that is missing, not newer or
      not readable.  The last three still count as a check. */
  lemma NothingRenewed(s: State, now: int, disk: Disk)
    requires s.status.generation in s.installed
    ensures s.checkInterval == 0 || now < s.status.lastCheck + s.checkInterval ==> AfterReload(s, now, disk) == s
    ensures (
      && s.checkInterval != 0 && s.status.lastCheck + s.checkInterval <= now
      && (!disk.statOk || disk.mtime <= s.status.lastChange || !disk.openOk)
    ) ==> AfterReload(s, now, disk) == s.(status := s.status.(lastCheck := now))
  {
    assert s.installed + {s.status.generation} == s.installed;
  }

  class Database {
    var address: Address
    var result: Answer
    var handle: nat
    var generation: nat
    var checkInterval: int
    var lastCheck: int
    var lastChange: int
    // Whether a lookup has filled the cache, and in which generation that was.
    ghost var filled: bool
    ghost var filledIn: nat
    // Every generation that was installed so far.
    ghost var installed: set<nat>
    // How many reloads there have been, and when the cache was filled.
    ghost var reloads: nat
    ghost var filledAt: nat

    constructor (handle: nat, generation: nat, now: int, checkInterval: int)
      ensures this.handle == handle && this.generation == generation && this.checkInterval == checkInterval
      ensures lastCheck == lastChange == now && !filled && reloads == 0
      ensures installed == {generation}
    {
      address, result := 0, NotFound;
      this.handle, this.generation, this.checkInterval := handle, generation, checkInterval;
      lastCheck, lastChange := now, now;
      filled, filledIn, reloads, filledAt := false, generation, 0, 0;
      installed := {generation};
    }

    ghost function Current(): State
      reads this
    {
      State(Status(handle, generation, lastCheck, lastChange), checkInterval,
            CacheState(address, result, filled, filledIn, filledAt), installed, reloads)
    }

    /** Once filled, the cache holds what some generation installed by now answers for its address, and that
        generation is the current one as long as no reload came after. */
    ghost predicate Coherent(lookup: (nat, Address) -> Answer)
      reads this
    {
      generation in installed && (filled ==>
        && filledIn in installed
        && result == lookup(filledIn, address)
        && filledAt <= reloads
        && (filledAt == reloads ==> filledIn == generation))
    }

    /** The part of ngx_http_geoip2_variable that finds the entry for an address: a new address is looked up, the
        address of the last lookup is answered from the cache. */
    method Variable(a: Address, lookup: (nat, Address) -> Answer) returns (r: Answer)
      requires Coherent(lookup)
      modifies this`address, this`result, this`filled, this`filledIn, this`filledAt
      ensures Coherent(lookup) && address == a && result == r
      ensures a != old(address) ==>
        r == lookup(generation, a) && filled && filledIn == generation && filledAt == reloads
      ensures a == old(address) ==>
        r == old(result) && filled == old(filled) && filledIn == old(filledIn) && filledAt == old(filledAt)
      ensures filled && filledAt == reloads ==> r == lookup(generation, a)
    {
      if a != address {
        address := a;
        result := lookup(generation, a);
        filled, filledIn, filledAt := true, generation, reloads;
      }
      r := result;
    }

    /** The reload of one database in ngx_http_geoip2_log_handler.  `unmapped` and `mapped` are the handles
        that MMDB_close and MMDB_open were called for. */
    method Reload(now: int, disk: Disk, ghost lookup: (nat, Address) -> Answer)
      returns (ghost unmapped: set<nat>, ghost mapped: set<nat>)
      requires Coherent(lookup)
      modifies this
      ensures Coherent(lookup)
      ensures Current() == AfterReload(old(Current()), now, disk)
      ensures address == old(address) && result == old(result) && checkInterval == old(checkInterval)
      ensures old(lastChange) <= lastChange
      ensures if Renews(old(Current()).status, checkInterval, now, disk)
        then unmapped == {old(handle)} && mapped == {handle}
        else unmapped == {} && mapped == {}
    {
      unmapped, mapped := {}, {};
      if checkInterval == 0 {
        return;
      }
      if lastCheck + checkInterval > now {
        return;
      }
      lastCheck := now;
      if !disk.statOk {
        return;
      }
      if disk.mtime <= lastChange {
        return;
      }
      if !disk.openOk {
        return;
      }
      lastChange := disk.mtime;
      unmapped, mapped := {handle}, {disk.handle};
      handle, generation, reloads := disk.handle, disk.generation, reloads + 1;
      installed := installed + {generation};
    }
  }

  // ---------------------------------------------------------------- all databases of a configuration

  ghost function Handles(dbs: seq<Database>): (h: seq<nat>)
    reads dbs
    ensures |h| == |dbs| && forall i :: 0 <= i < |dbs| ==> h[i] == dbs[i].handle
  {
    seq(|dbs|, i requires 0 <= i < |dbs| reads dbs => dbs[i].handle)
  }

  ghost predicate Distinct<T>(s: seq<T>)
  {
    forall i, j :: 0 <= i < j < |s| ==> s[i] != s[j]
  }

  ghost function Members(h: seq<nat>): set<nat>
  {
    set x | x in h
  }

  // Exchanging one of several distinct handles for a new one.
  lemma Exchange(h: seq<nat>, q: nat, fresh': nat)
    requires q < |h| && Distinct(h) && fresh' !in h
    ensures Distinct(h[q := fresh']) && Members(h[q := fresh']) == Members(h) - {h[q]} + {fresh'}
  {
    var g := h[q := fresh'];
    forall x ensures x in g <==> (x in h && x != h[q]) || x == fresh' {
      if x in h && x != h[q] {
        var i :| 0 <= i < |h| && h[i] == x;
        assert g[i] == x;
      }
      if x == fresh' { assert g[q] == x; }
    }
  }

  lemma {:induction false} CountMembers(h: seq<nat>)
    requires Distinct(h)
    ensures |Members(h)| == |h|
  {
    if h != [] {
      var n := |h| - 1;
      CountMembers(h[..n]);
      assert h == h[..n] + [h[n]];
      assert Members(h) == Members(h[..n]) + {h[n]};
    }
  }

  // The handles that MMDB_open may return are not in use and differ.
  ghost predicate Unused(disks: seq<Disk>, h: seq<nat>)
  {
    && (forall i, j :: 0 <= i < |h| && 0 <= j < |disks| ==> h[i] != disks[j].handle)
    && (forall i, j :: 0 <= i < j < |disks| ==> disks[i].handle != disks[j].handle)
  }

  // The first q databases may have the handles that were opened for them.
  ghost predicate Reopened(before: seq<nat>, h: seq<nat>, disks: seq<Disk>, q: nat)
  {
    && |h| == |before| == |disks|
    && forall i :: 0 <= i < |h| ==> h[i] == before[i] || (i < q && h[i] == disks[i].handle)
  }

  lemma FreshHandle(before: seq<nat>, h: seq<nat>, disks: seq<Disk>, q: nat)
    requires Reopened(before, h, disks, q) && q < |disks| && Unused(disks, before)
    ensures disks[q].handle !in h
    ensures Reopened(before, h, disks, q + 1) && Reopened(before, h[q := disks[q].handle], disks, q + 1)
  {
  }

  // The loop body for one database.
  method ReloadOne(dbs: seq<Database>, q: nat, now: int, disk: Disk, ghost lookup: (nat, Address) -> Answer,
                   ghost open: set<nat>)
    returns (ghost open': set<nat>)
    requires q < |dbs| && Distinct(dbs) && dbs[q].Coherent(lookup)
    requires open == Members(Handles(dbs)) && Distinct(Handles(dbs)) && disk.handle !in Handles(dbs)
    modifies dbs[q]
    ensures dbs[q].Coherent(lookup) && Turned(old(dbs[q].Current()), dbs[q].Current(), now, disk)
    ensures open' == Members(Handles(dbs)) && Distinct(Handles(dbs))
    ensures Handles(dbs) == old(Handles(dbs)) || Handles(dbs) == old(Handles(dbs))[q := disk.handle]
  {
    assert forall i :: 0 <= i < |dbs| && i != q ==> dbs[i] != dbs[q];
    hide Members, Distinct, Database.Coherent;
    ReloadKeeps(dbs[q].Current(), now, disk);
    ghost var before := Handles(dbs);
    ghost var unmapped, mapped := dbs[q].Reload(now, disk, lookup);
    open' := open - unmapped + mapped;
    assert Handles(dbs) == before[q := dbs[q].handle];
    if mapped != {} {
      Exchange(before, q, disk.handle);
    } else {
      assert before[q := before[q]] == before;
    }
  }

  /** ngx_http_geoip2_log_handler: afterwards every database that was due, changed and readable has the handle, the
      generation and the time of its file, and no other changed but for the time of its check; exactly one handle per
      database is open, and every cache is coherent.  MMDB_open returns handles that are not in use. */
  method LogHandler(dbs: seq<Database>, now: int, disks: seq<Disk>, ghost lookup: (nat, Address) -> Answer)
    returns (ghost open: set<nat>)
    requires |disks| == |dbs| && Distinct(dbs) && Distinct(Handles(dbs)) && Unused(disks, Handles(dbs))
    requires forall i :: 0 <= i < |dbs| ==> dbs[i].Coherent(lookup)
    modifies dbs
    ensures open == Members(Handles(dbs)) && Distinct(Handles(dbs)) && |open| == |dbs|
    ensures forall i :: 0 <= i < |dbs| ==>
      dbs[i].Coherent(lookup) && Turned(old(dbs[i].Current()), dbs[i].Current(), now, disks[i])
  {
    assert forall i, j :: 0 <= i < j < |dbs| ==> dbs[i] != dbs[j];
    ghost var handles := Handles(dbs);
    assert Reopened(handles, handles, disks, 0);
    hide Unused, Distinct, Members, Database.Coherent, Turned, Reopened, Handles;
    open := Members(handles);
    for q := 0 to |dbs|
      invariant open == Members(Handles(dbs)) && Distinct(Handles(dbs))
      invariant forall i :: 0 <= i < |dbs| ==> dbs[i].Coherent(lookup)
      invariant forall i :: 0 <= i < q ==> Turned(old(dbs[i].Current()), dbs[i].Current(), now, disks[i])
      invariant forall i :: q <= i < |dbs| ==> dbs[i].Current() == old(dbs[i].Current())
      invariant Reopened(handles, Handles(dbs), disks, q)
    {
      FreshHandle(handles, Handles(dbs), disks, q);
      open := ReloadOne(dbs, q, now, disks[q], lookup, open);
    }
    CountMembers(Handles(dbs));
  }
}
