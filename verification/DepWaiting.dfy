/** Waiting for dependencies by events (deployer/jobtree.py), and chains of
    waiters whose firing is itself an event (deployer/ir_to_python.py). */
module DepWaiting {
  import opened Common

  /** The fields of a dependency or event that are looked at. */
  datatype Fields = Fields(kind: string, name: Option<string>, package: Option<string>, image: Option<string>)

  datatype Key = Key(kind: string, name: Option<string>) | Unknown(fields: Fields)

  /** `a or b`: an empty text counts as missing. */
  function Or(a: Option<string>, b: Option<string>): Option<string> {
    if a.Some? && a.value != "" then a else b
  }

  /** `_key`. */
  function KeyOf(dep: Fields): Key {
    if dep.kind == "abstract" then Key("abstract", dep.name)
    else if dep.kind == "docker-image" then Key("docker-image", dep.image)
    else if dep.kind == "apt-dep" || dep.kind == "apt-pkg" then Key("apt-dep", Or(dep.package, dep.name))
    else if dep.kind == "sys-cmd-dep" || dep.kind == "sys-cmd" then Key("sys-cmd-dep", dep.name)
    else Unknown(dep)
  }

  /** An event: not a dictionary, or its fields and the dependency it carries. */
  datatype Event = Other | Report(fields: Fields, dep: Option<Fields>)

  /** The dependency an event reports. */
  function Reported(event: Event): Option<Key> {
    if event.Other? then None
    else
      var f := event.fields;
      if f.kind == "dependency" && event.dep.Some? then Some(KeyOf(event.dep.value))
      else if f.kind == "apt-dep" then Some(Key("apt-dep", f.package))
      else if f.kind == "sys-cmd-dep" then Some(Key("sys-cmd-dep", f.name))
      else if f.kind == "abstract-dep" then Some(Key("abstract", f.name))
      else None
  }

  datatype Waiter = Waiter(dependencies: set<Key>, seen: set<Key>, fired: bool)

  /** `waitfor`: the waiter afterwards; it fires when `fired` becomes true. */
  function Feed(w: Waiter, event: Event): Waiter {
    if w.fired then w
    else if w.dependencies <= w.seen then w.(fired := true)
    else
      var key := Reported(event);
      var seen := if key.Some? && key.value in w.dependencies then w.seen + {key.value} else w.seen;
      w.(seen := seen, fired := w.dependencies <= seen)
  }

  /** The waiter as it updates itself. */
  class DepWaiter {
    const dependencies: set<Key>
    var seen: set<Key>
    var fired: bool

    constructor (dependencies: set<Key>)
      ensures View() == Waiter(dependencies, {}, false)
    {
      this.dependencies := dependencies;
      seen, fired := {}, false;
    }

    function View(): Waiter
      reads this
    {
      Waiter(dependencies, seen, fired)
    }

    /** `acts` where the program runs the action. */
    method WaitFor(event: Event) returns (acts: bool)
      modifies this
      ensures View() == Feed(old(View()), event)
      ensures acts <==> fired && !old(fired)
    {
      if fired {
        return false;
      }
      if dependencies <= seen {
        fired := true;
        return true;
      }
      var key := Reported(event);
      if key.Some? && key.value in dependencies {
        seen := seen + {key.value};
      }
      if dependencies == {} || dependencies <= seen {
        fired := true;
        return true;
      }
      return false;
    }
  }

  // ---------------------------------------------------------------------
  // One waiter
  // ---------------------------------------------------------------------

  function FeedAll(w: Waiter, events: seq<Event>): Waiter {
    if events == [] then w else Feed(FeedAll(w, events[..|events| - 1]), events[|events| - 1])
  }

  function ReportedBy(events: seq<Event>): set<Key> {
    set i | 0 <= i < |events| && Reported(events[i]).Some? :: Reported(events[i]).value
  }

  /** The first `n` events are enough. */
  predicate Enough(dependencies: set<Key>, events: seq<Event>, n: nat)
    requires n <= |events|
  {
    n > 0 && dependencies <= ReportedBy(events[..n])
  }

  lemma ReportedOneMore(events: seq<Event>)
    requires events != []
    ensures var last := Reported(events[|events| - 1]);
            ReportedBy(events) == ReportedBy(events[..|events| - 1]) + if last.Some? then {last.value} else {}
  {
    var before := events[..|events| - 1];
    forall k | k in ReportedBy(before) ensures k in ReportedBy(events) {
      var i :| 0 <= i < |before| && Reported(before[i]) == Some(k);
      assert Reported(events[i]) == Some(k);
    }
    forall k | k in ReportedBy(events) ensures k in ReportedBy(before) || Reported(events[|events| - 1]) == Some(k) {
      var i :| 0 <= i < |events| && Reported(events[i]) == Some(k);
      if i < |before| {
        assert Reported(before[i]) == Some(k);
      }
    }
  }

  /** A fresh waiter has fired exactly when the events so far, at least one of
      them, reported all its dependencies. */
  lemma {:induction false} FiredIff(dependencies: set<Key>, events: seq<Event>)
    ensures var w := FeedAll(Waiter(dependencies, {}, false), events);
            && w.dependencies == dependencies
            && (w.fired <==> Enough(dependencies, events, |events|))
            && (!w.fired ==> w.seen == dependencies * ReportedBy(events))
  {
    if events != [] {
      var before := events[..|events| - 1];
      FiredIff(dependencies, before);
      ReportedOneMore(events);
      assert events[..|events|] == events && before[..|before|] == before;
    }
  }

  /** A fresh waiter runs its action on event `n`. */
  predicate Acts(dependencies: set<Key>, events: seq<Event>, n: nat)
    requires n < |events|
  {
    var w := Waiter(dependencies, {}, false);
    FeedAll(w, events[..n + 1]).fired && !FeedAll(w, events[..n]).fired
  }

  /** It acts on event `n` exactly when that is the first that completes its
      set, so once and never otherwise; without dependencies, on the first
      event. */
  lemma ActsOnCompletion(dependencies: set<Key>, events: seq<Event>, n: nat)
    requires n < |events|
    ensures (Acts(dependencies, events, n)
        <==> Enough(dependencies, events, n + 1) && forall m | 0 <= m <= n :: !Enough(dependencies, events, m))
  {
    FiredIff(dependencies, events[..n + 1]);
    FiredIff(dependencies, events[..n]);
    assert events[..n + 1][..n + 1] == events[..n + 1] && events[..n][..n] == events[..n];
    assert Acts(dependencies, events, n) <==> Enough(dependencies, events, n + 1) && !Enough(dependencies, events, n);
    forall m | 0 <= m <= n ensures Enough(dependencies, events, m) ==> Enough(dependencies, events, n) {
      EnoughStays(dependencies, events, m, n);
    }
  }

  lemma {:induction false} EnoughStays(dependencies: set<Key>, events: seq<Event>, m: nat, n: nat)
    requires m <= n <= |events|
    ensures Enough(dependencies, events, m) ==> Enough(dependencies, events, n)
  {
    if m < n {
      EnoughStays(dependencies, events, m, n - 1);
      ReportedOneMore(events[..n]);
      assert events[..n][..n - 1] == events[..n - 1];
    }
  }

  // ---------------------------------------------------------------------
  // Which events meet which dependencies
  // ---------------------------------------------------------------------

  const APT := {"apt-dep", "apt-pkg"}

  const SYS_CMD := {"sys-cmd-dep", "sys-cmd"}

  /** The package of an apt dependency: its `package`, or its `name` where that is
      missing or empty. */
  predicate IsPackage(dep: Fields, package: Option<string>) {
    if dep.package == None || dep.package == Some("") then package == dep.name else package == dep.package
  }

  /** The two dictionaries name one dependency. */
  ghost predicate SameDependency(x: Fields, y: Fields) {
    || x == y
    || (x.kind == y.kind == "abstract" && x.name == y.name)
    || (x.kind == y.kind == "docker-image" && x.image == y.image)
    || (x.kind in APT && y.kind in APT && exists p :: IsPackage(x, p) && IsPackage(y, p))
    || (x.kind in SYS_CMD && y.kind in SYS_CMD && x.name == y.name)
  }

  /** The event reports the dependency: it carries it, or it is of the event kind
      for it and names the same thing. */
  ghost predicate Meets(event: Event, dep: Fields) {
    && event.Report?
    && var f := event.fields;
       || (f.kind == "dependency" && event.dep.Some? && SameDependency(event.dep.value, dep))
       || (f.kind == "apt-dep" && dep.kind in APT && IsPackage(dep, f.package))
       || (f.kind == "sys-cmd-dep" && dep.kind in SYS_CMD && dep.name == f.name)
       || (f.kind == "abstract-dep" && dep.kind == "abstract" && dep.name == f.name)
  }

  lemma MeetsIff(event: Event, dep: Fields)
    ensures Reported(event) == Some(KeyOf(dep)) <==> Meets(event, dep)
  {
    if event.Report? && event.dep.Some? {
      SameKeyIff(event.dep.value, dep);
    }
    PackageIs(dep, Or(dep.package, dep.name));
  }

  lemma SameKeyIff(x: Fields, y: Fields)
    ensures KeyOf(x) == KeyOf(y) <==> SameDependency(x, y)
  {
    PackageIs(x, Or(x.package, x.name));
    PackageIs(y, Or(y.package, y.name));
  }

  lemma PackageIs(dep: Fields, package: Option<string>)
    ensures IsPackage(dep, package) <==> package == Or(dep.package, dep.name)
  {
  }

  function KeysOf(deps: seq<Fields>): set<Key> {
    set i | 0 <= i < |deps| :: KeyOf(deps[i])
  }

  /** A waiter for dependencies as declared has fired exactly when there was an
      event, and every dependency was met by one. */
  lemma FiredIffMet(deps: seq<Fields>, events: seq<Event>)
    ensures FeedAll(Waiter(KeysOf(deps), {}, false), events).fired <==>
            events != [] && forall i | 0 <= i < |deps| :: exists j | 0 <= j < |events| :: Meets(events[j], deps[i])
  {
    FiredIff(KeysOf(deps), events);
    assert events[..|events|] == events;
    forall i | 0 <= i < |deps|
      ensures KeyOf(deps[i]) in ReportedBy(events) <==> exists j | 0 <= j < |events| :: Meets(events[j], deps[i])
    {
      forall j | 0 <= j < |events| ensures Reported(events[j]) == Some(KeyOf(deps[i])) <==> Meets(events[j], deps[i]) {
        MeetsIff(events[j], deps[i]);
      }
    }
  }

  // ---------------------------------------------------------------------
  // Chained waiters
  // ---------------------------------------------------------------------

  /** Waiters by the abstract dependency they announce when they fire, and the
      events still to be delivered, in any order. */
  datatype Chain = Chain(waiters: map<string, Waiter>, pending: multiset<Event>)

  function Announce(name: string): Event {
    Report(Fields("abstract-dep", Some(name), None, None), None)
  }

  function Firing(waiters: map<string, Waiter>, event: Event): set<string> {
    set n | n in waiters && !waiters[n].fired && Feed(waiters[n], event).fired
  }

  function Announcements(names: set<string>): multiset<Event> {
    multiset(set n | n in names :: Announce(n))
  }

  /** One pending event goes to every waiter; those that fire are announced. */
  function Deliver(c: Chain, event: Event): Chain
    requires event in c.pending
  {
    Chain(map n | n in c.waiters :: Feed(c.waiters[n], event),
          c.pending - multiset{event} + Announcements(Firing(c.waiters, event)))
  }

  function Start(rules: map<string, set<Key>>, external: multiset<Event>): Chain {
    Chain(map n | n in rules :: Waiter(rules[n], {}, false), external)
  }

  /** `events` is an order of delivery. */
  predicate Delivers(c: Chain, events: seq<Event>)
    decreases events
  {
    events == [] || (events[0] in c.pending && Delivers(Deliver(c, events[0]), events[1..]))
  }

  function AfterAll(c: Chain, events: seq<Event>): Chain
    requires Delivers(c, events)
    decreases events
  {
    if events == [] then c else AfterAll(Deliver(c, events[0]), events[1..])
  }

  function Fired(c: Chain): set<string> {
    set n | n in c.waiters && c.waiters[n].fired
  }

  /** What a set of announced names and the external events report. */
  predicate Available(external: multiset<Event>, names: set<string>, k: Key) {
    (exists e | e in external :: Reported(e) == Some(k)) || (exists n | n in names :: k == Key("abstract", Some(n)))
  }

  /** Every rule whose dependencies are available is in the set. */
  ghost predicate Closed(rules: map<string, set<Key>>, external: multiset<Event>, names: set<string>) {
    forall n | n in rules && (forall k | k in rules[n] :: Available(external, names, k)) :: n in names
  }

  /** The least fixpoint of the rules. */
  ghost predicate IsLeast(rules: map<string, set<Key>>, external: multiset<Event>, names: set<string>) {
    && names <= rules.Keys
    && Closed(rules, external, names)
    && (forall other | Closed(rules, external, other) :: names <= other)
  }

  /** Where a chain stands: `delivered` is what was reported so far. A waiter has
      seen what of it concerns it and fired once it had all; and what was or will
      be delivered is what is available. */
  ghost predicate ChainOk(rules: map<string, set<Key>>, external: multiset<Event>, c: Chain, delivered: set<Key>,
      started: bool) {
    && c.waiters.Keys == rules.Keys
    && (forall n | n in rules :: WaiterOk(c.waiters[n], rules[n], delivered, started))
    && (forall k :: Pending(c, k) || k in delivered <==> Available(external, Fired(c), k))
  }

  ghost predicate WaiterOk(w: Waiter, dependencies: set<Key>, delivered: set<Key>, started: bool) {
    && w.dependencies == dependencies
    && (w.fired ==> dependencies <= delivered)
    && (!w.fired ==> w.seen == dependencies * delivered && (started ==> !(dependencies <= delivered)))
  }

  predicate Pending(c: Chain, k: Key) {
    exists e | e in c.pending :: Reported(e) == Some(k)
  }

  function With(delivered: set<Key>, event: Event): set<Key> {
    if Reported(event).Some? then delivered + {Reported(event).value} else delivered
  }

  lemma FeedKeeps(w: Waiter, dependencies: set<Key>, delivered: set<Key>, started: bool, event: Event)
    requires WaiterOk(w, dependencies, delivered, started)
    ensures WaiterOk(Feed(w, event), dependencies, With(delivered, event), true)
    ensures w.fired ==> Feed(w, event).fired
  {
  }

  lemma AnnouncedIs(names: set<string>, k: Key)
    ensures (exists e | e in Announcements(names) :: Reported(e) == Some(k)) <==>
            (exists n | n in names :: k == Key("abstract", Some(n)))
  {
    forall n | n in names
        ensures Announce(n) in Announcements(names) && Reported(Announce(n)) == Some(Key("abstract", Some(n))) {
    }
    forall e | e in Announcements(names) ensures exists n | n in names :: e == Announce(n) {
    }
  }

  /** Who has fired after a delivery. */
  lemma FiredGrows(c: Chain, event: Event)
    requires event in c.pending
    ensures Fired(Deliver(c, event)) == Fired(c) + Firing(c.waiters, event)
  {
    var d := Deliver(c, event);
    forall n | n in c.waiters ensures n in Fired(d) <==> n in Fired(c) || n in Firing(c.waiters, event) {
    }
  }

  lemma PendingAfter(c: Chain, event: Event, k: Key)
    requires event in c.pending
    ensures Pending(Deliver(c, event), k) || Reported(event) == Some(k)
       <==> Pending(c, k) || exists n | n in Firing(c.waiters, event) :: k == Key("abstract", Some(n))
  {
    var names := Firing(c.waiters, event);
    var d := Deliver(c, event);
    AnnouncedIs(names, k);
    forall e ensures (e in d.pending || e == event) <==> (e in c.pending || e in Announcements(names)) {
    }
  }

  lemma DeliverKeeps(rules: map<string, set<Key>>, external: multiset<Event>, c: Chain, delivered: set<Key>,
      started: bool, event: Event)
    requires ChainOk(rules, external, c, delivered, started) && event in c.pending
    ensures ChainOk(rules, external, Deliver(c, event), With(delivered, event), true)
  {
    var d := Deliver(c, event);
    forall n | n in rules ensures WaiterOk(d.waiters[n], rules[n], With(delivered, event), true) {
      FeedKeeps(c.waiters[n], rules[n], delivered, started, event);
    }
    AvailableKept(rules, external, c, delivered, started, event);
  }

  lemma AvailableKept(rules: map<string, set<Key>>, external: multiset<Event>, c: Chain, delivered: set<Key>,
      started: bool, event: Event)
    requires ChainOk(rules, external, c, delivered, started) && event in c.pending
    ensures var d := Deliver(c, event);
            forall k :: Pending(d, k) || k in With(delivered, event) <==> Available(external, Fired(d), k)
  {
    var d := Deliver(c, event);
    FiredGrows(c, event);
    forall k ensures Pending(d, k) || k in With(delivered, event) <==> Available(external, Fired(d), k) {
      PendingAfter(c, event, k);
    }
  }

  /** Nothing fires that the rules do not make fire. */
  lemma DeliverIsSound(rules: map<string, set<Key>>, external: multiset<Event>, c: Chain, delivered: set<Key>,
      started: bool, event: Event, closed: set<string>)
    requires ChainOk(rules, external, c, delivered, started) && event in c.pending
    requires Closed(rules, external, closed) && Fired(c) <= closed
    ensures Fired(Deliver(c, event)) <= closed
  {
    FiredGrows(c, event);
    forall n | n in Firing(c.waiters, event) ensures n in closed {
      FeedKeeps(c.waiters[n], rules[n], delivered, started, event);
      forall k | k in rules[n] ensures Available(external, closed, k) {
        assert k in With(delivered, event);
        assert Pending(c, k) || k in delivered;
        assert Available(external, Fired(c), k);
      }
    }
  }

  lemma {:induction false} RunKeeps(rules: map<string, set<Key>>, external: multiset<Event>, c: Chain,
      delivered: set<Key>, started: bool, events: seq<Event>)
      returns (reported: set<Key>)
    requires ChainOk(rules, external, c, delivered, started) && Delivers(c, events)
    ensures ChainOk(rules, external, AfterAll(c, events), reported, started || events != [])
    decreases events
  {
    if events == [] {
      reported := delivered;
    } else {
      DeliverKeeps(rules, external, c, delivered, started, events[0]);
      reported := RunKeeps(rules, external, Deliver(c, events[0]), With(delivered, events[0]), true, events[1..]);
    }
  }

  lemma {:induction false} RunIsSound(rules: map<string, set<Key>>, external: multiset<Event>, c: Chain,
      delivered: set<Key>, started: bool, events: seq<Event>, closed: set<string>)
    requires ChainOk(rules, external, c, delivered, started) && Delivers(c, events)
    requires Closed(rules, external, closed) && Fired(c) <= closed
    ensures Fired(AfterAll(c, events)) <= closed
    decreases events
  {
    if events != [] {
      DeliverKeeps(rules, external, c, delivered, started, events[0]);
      DeliverIsSound(rules, external, c, delivered, started, events[0], closed);
      RunIsSound(rules, external, Deliver(c, events[0]), With(delivered, events[0]), true, events[1..], closed);
    }
  }

  lemma StartIsOk(rules: map<string, set<Key>>, external: multiset<Event>)
    ensures ChainOk(rules, external, Start(rules, external), {}, false) && Fired(Start(rules, external)) == {}
  {
  }

  /** Confluence: whatever the order of delivery, once every event is delivered,
      and at least one was, the waiters that fired are the least fixpoint of the
      rules. */
  lemma FiredIsLeast(rules: map<string, set<Key>>, external: multiset<Event>, events: seq<Event>)
    requires Delivers(Start(rules, external), events) && events != []
    requires AfterAll(Start(rules, external), events).pending == multiset{}
    ensures IsLeast(rules, external, Fired(AfterAll(Start(rules, external), events)))
  {
    var start, end := Start(rules, external), AfterAll(Start(rules, external), events);
    StartIsOk(rules, external);
    var reported := RunKeeps(rules, external, start, {}, false, events);
    forall n | n in rules && (forall k | k in rules[n] :: Available(external, Fired(end), k)) ensures n in Fired(end) {
      forall k | k in rules[n] ensures k in reported {
        assert Pending(end, k) || k in reported <==> Available(external, Fired(end), k);
      }
      assert WaiterOk(end.waiters[n], rules[n], reported, true);
    }
    forall closed | Closed(rules, external, closed) ensures Fired(end) <= closed {
      RunIsSound(rules, external, start, {}, false, events, closed);
    }
  }

  /** Two complete deliveries fire the same waiters. */
  lemma OrderDoesNotMatter(rules: map<string, set<Key>>, external: multiset<Event>, x: seq<Event>, y: seq<Event>)
    requires Delivers(Start(rules, external), x) && x != [] && AfterAll(Start(rules, external), x).pending == multiset{}
    requires Delivers(Start(rules, external), y) && y != [] && AfterAll(Start(rules, external), y).pending == multiset{}
    ensures Fired(AfterAll(Start(rules, external), x)) == Fired(AfterAll(Start(rules, external), y))
  {
    FiredIsLeast(rules, external, x);
    FiredIsLeast(rules, external, y);
  }

  // ---------------------------------------------------------------------
  // Every delivery can be completed
  // ---------------------------------------------------------------------

  lemma {:induction false} AnnouncedOnce(names: set<string>)
    ensures |Announcements(names)| == |names|
  {
    if names != {} {
      var n :| n in names;
      var rest := names - {n};
      AnnouncedOnce(rest);
      var all, others := set m | m in names :: Announce(m), set m | m in rest :: Announce(m);
      forall m | m in names ensures Announce(m) in others + {Announce(n)} {
      }
      assert all == others + {Announce(n)};
      forall m | m in rest ensures Announce(m) != Announce(n) {
      }
      assert Announce(n) !in others;
    }
  }

  /** One event less to deliver, and one more for each waiter that fires. */
  lemma DeliverBalances(c: Chain, event: Event)
    requires event in c.pending
    ensures var d := Deliver(c, event);
            |d.pending| + 1 + |Fired(c)| == |c.pending| + |Fired(d)| && d.waiters.Keys == c.waiters.Keys
  {
    var names := Firing(c.waiters, event);
    AnnouncedOnce(names);
    FiredGrows(c, event);
    assert Fired(c) !! names;
    assert |Fired(c) + names| == |Fired(c)| + |names|;
  }

  /** However far a delivery got: what was delivered and what is pending are the
      external events and one announcement of each waiter that fired. */
  lemma {:induction false} RunBalances(c: Chain, events: seq<Event>)
    requires Delivers(c, events)
    ensures var d := AfterAll(c, events); |events| + |d.pending| + |Fired(c)| == |c.pending| + |Fired(d)|
    decreases events
  {
    if events != [] {
      DeliverBalances(c, events[0]);
      RunBalances(Deliver(c, events[0]), events[1..]);
    }
  }

  lemma FiredIsWithin(c: Chain)
    ensures |Fired(c)| <= |c.waiters|
  {
    assert Fired(c) <= c.waiters.Keys;
    Smaller(Fired(c), c.waiters.Keys);
  }

  lemma {:induction false} Smaller(x: set<string>, y: set<string>)
    requires x <= y
    ensures |x| <= |y|
  {
    assert y == x + (y - x);
  }

  /** What is pending can be delivered to the end. */
  lemma {:induction false} Completes(c: Chain) returns (more: seq<Event>)
    ensures Delivers(c, more) && AfterAll(c, more).pending == multiset{}
    decreases |c.pending| + |c.waiters| - |Fired(c)|
  {
    FiredIsWithin(c);
    more := [];
    if c.pending != multiset{} {
      var event :| event in c.pending;
      DeliverBalances(c, event);
      FiredIsWithin(Deliver(c, event));
      var rest := Completes(Deliver(c, event));
      more := [event] + rest;
      DeliversOneMore(c, event, rest, Deliver(c, event));
    }
  }

  lemma DeliversFirst(c: Chain, events: seq<Event>)
    requires events != [] && Delivers(c, events)
    ensures events[0] in c.pending && Delivers(Deliver(c, events[0]), events[1..])
  {
  }

  lemma DeliversOneMore(c: Chain, event: Event, rest: seq<Event>, next: Chain)
    requires event in c.pending && next == Deliver(c, event) && Delivers(next, rest)
    ensures Delivers(c, [event] + rest) && AfterAll(c, [event] + rest) == AfterAll(next, rest)
  {
    assert ([event] + rest)[1..] == rest;
  }

  lemma {:induction false} CompletesFrom(c: Chain, events: seq<Event>) returns (all: seq<Event>)
    requires Delivers(c, events)
    ensures events <= all && Delivers(c, all) && AfterAll(c, all).pending == multiset{}
    decreases events
  {
    if events == [] {
      all := Completes(c);
    } else {
      DeliversFirst(c, events);
      var next := Deliver(c, events[0]);
      var rest := CompletesFrom(next, events[1..]);
      all := [events[0]] + rest;
      DeliversOneMore(c, events[0], rest, next);
    }
  }

  /** Every delivery, however far it got, extends to a complete one; that has the
      external events and one announcement of each waiter that fired. */
  lemma DeliveryCompletes(rules: map<string, set<Key>>, external: multiset<Event>, events: seq<Event>)
    returns (all: seq<Event>)
    requires Delivers(Start(rules, external), events)
    ensures events <= all && Delivers(Start(rules, external), all)
    ensures AfterAll(Start(rules, external), all).pending == multiset{}
    ensures |all| == |external| + |Fired(AfterAll(Start(rules, external), all))|
  {
    var start := Start(rules, external);
    all := CompletesFrom(start, events);
    RunBalances(start, all);
    StartIsOk(rules, external);
  }

  /** So with an external event at all, every delivery can reach the least
      fixpoint, and reaches nothing else. */
  lemma LeastIsReached(rules: map<string, set<Key>>, external: multiset<Event>, events: seq<Event>)
    returns (all: seq<Event>)
    requires external != multiset{} && Delivers(Start(rules, external), events)
    ensures events <= all && Delivers(Start(rules, external), all)
    ensures IsLeast(rules, external, Fired(AfterAll(Start(rules, external), all)))
  {
    all := DeliveryCompletes(rules, external, events);
    FiredIsLeast(rules, external, all);
  }
}
