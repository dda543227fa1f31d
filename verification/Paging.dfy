/** Server paging of apps/platform_ui/src/records.tsx: a generation counter that
    tells the latest request from older ones, and a cursor history. Requests
    run concurrently and settle in any order. */
module Paging {
  import opened Optional

  /** The cursors of the pages from the first to the current one. The first
      page has no cursor. */
  type History = seq<Option<string>>

  const FIRST_PAGE: History := [None]

  datatype Page<R> = Page(rows: seq<R>, next: Option<string>, total: Option<nat>)

  /** A request that waits for its response. */
  datatype Flight = Flight(generation: nat, history: History)

  /** The signals and variables of one server page. */
  datatype App<R> = App(
    rows: seq<R>, cursors: History, next: Option<string>, total: Option<nat>,
    pending: bool, error: Option<string>, generation: nat, active: bool)

  function Fresh<R>(): App<R> {
    App([], FIRST_PAGE, None, None, false, None, 0, true)
  }

  function Restarted<R>(a: App<R>): App<R> {
    a.(generation := a.generation + 1, cursors := FIRST_PAGE, next := None, total := None, error := None, pending := false)
  }

  function Requested<R>(a: App<R>): App<R> {
    if a.active then a.(generation := a.generation + 1, pending := true, error := None) else a
  }

  function Succeeded<R>(a: App<R>, f: Flight, page: Page<R>): App<R> {
    if f.generation != a.generation then a
    else a.(rows := page.rows, cursors := f.history, next := page.next, total := page.total, pending := false)
  }

  function Failed<R>(a: App<R>, f: Flight, text: string): App<R> {
    if f.generation != a.generation then a else a.(error := Some(text), pending := false)
  }

  predicate MayGoBack<R>(a: App<R>) {
    !a.pending && |a.cursors| > 1
  }

  predicate MayGoOn<R>(a: App<R>) {
    !a.pending && a.next.Some?
  }

  // ----- Every interleaving

  datatype Accepted<R> = Accepted(history: History, page: Page<R>)

  /** The page with its requests under way. `log` holds the accepted responses
      and `shown` the last one, unless a restart came after it. */
  datatype World<R> = World(app: App<R>, flights: set<Flight>, log: seq<Accepted<R>>, shown: Option<Accepted<R>>)

  datatype Event<R> =
    | Refresh
    | Reset
    | Previous
    | Next
    | Arrive(flight: Flight, page: Page<R>)
    | Reject(flight: Flight, text: string)
    | Unmount

  predicate Can<R>(w: World<R>, e: Event<R>) {
    e.Arrive? || e.Reject? ==> e.flight in w.flights
  }

  function Launch<R>(w: World<R>, a: App<R>, history: History): World<R> {
    w.(app := Requested(a), flights := w.flights + if a.active then {Flight(a.generation + 1, history)} else {})
  }

  function Do<R>(w: World<R>, e: Event<R>): World<R>
    requires Can(w, e)
  {
    match e
    case Refresh => Launch(w, Restarted(w.app), FIRST_PAGE).(shown := None)
    case Reset => w.(app := Restarted(w.app).(rows := []), shown := None)
    case Previous => if MayGoBack(w.app) then Launch(w, w.app, w.app.cursors[..|w.app.cursors| - 1]) else w
    case Next => if MayGoOn(w.app) then Launch(w, w.app, w.app.cursors + [w.app.next]) else w
    case Arrive(f, page) =>
      var landed := w.(app := Succeeded(w.app, f, page), flights := w.flights - {f});
      if f.generation != w.app.generation then landed
      else landed.(log := w.log + [Accepted(f.history, page)], shown := Some(Accepted(f.history, page)))
    case Reject(f, text) => w.(app := Failed(w.app, f, text), flights := w.flights - {f})
    case Unmount => w.(app := w.app.(active := false, generation := w.app.generation + 1))
  }

  function Start<R>(): World<R> {
    World(Fresh(), {}, [], None)
  }

  ghost predicate IsRun<R>(w: World<R>, events: seq<Event<R>>)
    decreases |events|
  {
    events == [] || (Can(w, events[0]) && IsRun(Do(w, events[0]), events[1..]))
  }

  ghost function End<R>(w: World<R>, events: seq<Event<R>>): World<R>
    requires IsRun(w, events)
    decreases |events|
  {
    if events == [] then w else End(Do(w, events[0]), events[1..])
  }

  lemma {:induction false} RunSnoc<R>(w: World<R>, events: seq<Event<R>>, e: Event<R>)
    requires IsRun(w, events) && Can(End(w, events), e)
    ensures IsRun(w, events + [e]) && End(w, events + [e]) == Do(End(w, events), e)
    decreases |events|
  {
    if events == [] {
      assert (events + [e])[1..] == [];
    } else {
      RunSnoc(Do(w, events[0]), events[1..], e);
      assert (events + [e])[1..] == events[1..] + [e] && (events + [e])[0] == events[0];
    }
  }

  // ----- The code

  /** What `createServerPage` returns. A request hands out its flight, and the
      rest of it runs when the response or the failure arrives. `events` is what has
      happened to the page so far. */
  class ServerPage<R> {
    var rows: seq<R>
    var cursors: History
    var next: Option<string>
    var total: Option<nat>
    var pending: bool
    var error: Option<string>
    var generation: nat
    var active: bool
    ghost var events: seq<Event<R>>

    ghost function View(): App<R>
      reads this
    {
      App(rows, cursors, next, total, pending, error, generation, active)
    }

    /** The page stands where its events lead. */
    ghost predicate Valid()
      reads this
    {
      IsRun(Start(), events) && End(Start(), events).app == View()
    }

    /** The requests under way. */
    ghost function Flights(): set<Flight>
      requires Valid()
      reads this
    {
      End(Start(), events).flights
    }

    constructor ()
      ensures Valid() && events == [] && Flights() == {}
      ensures View() == App([], [None], None, None, false, None, 0, true)
    {
      rows, cursors, next, total := [], FIRST_PAGE, None, None;
      pending, error, generation, active := false, None, 0, true;
      events := [];
    }

    method Cleanup()
      requires Valid()
      modifies this
      ensures Valid() && events == old(events) + [Unmount] && Flights() == old(Flights())
      ensures View() == old(View()).(active := false, generation := old(generation) + 1)
    {
      RunSnoc(Start(), events, Unmount);
      active := false;
      generation := generation + 1;
      events := events + [Unmount];
    }

    method Restart()
      modifies this
      ensures View() == App(old(rows), [None], None, None, false, None, old(generation) + 1, old(active))
      ensures events == old(events)
    {
      generation := generation + 1;
      cursors := FIRST_PAGE;
      next, total, error, pending := None, None, None, false;
    }

    method Reset()
      requires Valid()
      modifies this
      ensures Valid() && events == old(events) + [Event.Reset] && Flights() == old(Flights())
      ensures View() == App([], [None], None, None, false, None, old(generation) + 1, old(active))
    {
      RunSnoc(Start(), events, Event.Reset);
      Restart();
      rows := [];
      events := events + [Event.Reset];
    }

    /** `cursor` is what the request asks the server for. */
    method Request(history: History) returns (flight: Option<Flight>, cursor: Option<string>)
      requires history != []
      modifies this
      ensures !old(active) ==> View() == old(View()) && flight == None
      ensures old(active) ==>
                && View() == old(View()).(generation := old(generation) + 1, pending := true, error := None)
                && flight == Some(Flight(old(generation) + 1, history)) && cursor == history[|history| - 1]
      ensures events == old(events)
    {
      if !active {
        return None, None;
      }
      generation := generation + 1;
      pending, error := true, None;
      cursor := history[|history| - 1];
      flight := Some(Flight(generation, history));
    }

    method Arrive(flight: Flight, page: Page<R>)
      requires Valid() && flight in Flights()
      modifies this
      ensures Valid() && events == old(events) + [Event.Arrive(flight, page)] && Flights() == old(Flights()) - {flight}
      ensures flight.generation != old(generation) ==> View() == old(View())
      ensures flight.generation == old(generation) ==>
                View() == App(page.rows, flight.history, page.next, page.total, false, old(error), old(generation), old(active))
    {
      RunSnoc(Start(), events, Event.Arrive(flight, page));
      events := events + [Event.Arrive(flight, page)];
      if flight.generation != generation {
        return;
      }
      rows, cursors, next, total := page.rows, flight.history, page.next, page.total;
      if flight.generation == generation {
        pending := false;
      }
    }

    method Reject(flight: Flight, text: string)
      requires Valid() && flight in Flights()
      modifies this
      ensures Valid() && events == old(events) + [Event.Reject(flight, text)] && Flights() == old(Flights()) - {flight}
      ensures flight.generation != old(generation) ==> View() == old(View())
      ensures flight.generation == old(generation) ==> View() == old(View()).(error := Some(text), pending := false)
    {
      RunSnoc(Start(), events, Event.Reject(flight, text));
      events := events + [Event.Reject(flight, text)];
      if flight.generation == generation {
        error := Some(text);
      }
      if flight.generation == generation {
        pending := false;
      }
    }

    method Refresh() returns (flight: Option<Flight>, cursor: Option<string>)
      requires Valid()
      modifies this
      ensures Valid() && events == old(events) + [Event.Refresh] && Flights() == old(Flights()) + Lone(flight)
      ensures !old(active) ==>
                flight == None && View() == App(old(rows), [None], None, None, false, None, old(generation) + 1, false)
      ensures old(active) ==>
                && flight == Some(Flight(old(generation) + 2, [None])) && cursor == None
                && View() == App(old(rows), [None], None, None, true, None, old(generation) + 2, true)
    {
      RunSnoc(Start(), events, Event.Refresh);
      Restart();
      flight, cursor := Request(FIRST_PAGE);
      events := events + [Event.Refresh];
    }

    method OnPrevious() returns (flight: Option<Flight>, cursor: Option<string>)
      requires Valid()
      modifies this
      ensures Valid() && events == old(events) + [Previous] && Flights() == old(Flights()) + Lone(flight)
      ensures flight.Some? <==> old(active) && !old(pending) && |old(cursors)| > 1
      ensures flight.Some? ==>
                && flight.value.generation == old(generation) + 1
                && flight.value.history == old(cursors)[..|old(cursors)| - 1] && cursor == old(cursors)[|old(cursors)| - 2]
                && View() == old(View()).(generation := old(generation) + 1, pending := true, error := None)
      ensures flight.None? ==> View() == old(View())
    {
      RunSnoc(Start(), events, Previous);
      flight, cursor := None, None;
      if !pending && |cursors| > 1 {
        flight, cursor := Request(cursors[..|cursors| - 1]);
      }
      events := events + [Previous];
    }

    method OnNext() returns (flight: Option<Flight>, cursor: Option<string>)
      requires Valid()
      modifies this
      ensures Valid() && events == old(events) + [Next] && Flights() == old(Flights()) + Lone(flight)
      ensures flight.Some? <==> old(active) && !old(pending) && old(next).Some?
      ensures flight.Some? ==>
                && flight.value.generation == old(generation) + 1
                && flight.value.history == old(cursors) + [old(next)] && cursor == old(next)
                && View() == old(View()).(generation := old(generation) + 1, pending := true, error := None)
      ensures flight.None? ==> View() == old(View())
    {
      RunSnoc(Start(), events, Next);
      flight, cursor := None, next;
      if !pending && cursor.Some? {
        flight, cursor := Request(cursors + [cursor]);
      }
      events := events + [Next];
    }
  }

  /** The flight handed out, if any. */
  ghost function Lone(flight: Option<Flight>): set<Flight> {
    if flight.Some? then {flight.value} else {}
  }

  /** Some accepted response for exactly this history names this cursor next. */
  predicate Named<R>(log: seq<Accepted<R>>, history: History, cursor: Option<string>) {
    exists k :: 0 <= k < |log| && log[k].history == history && log[k].page.next == cursor
  }

  /** A history starts at the first page, and each later cursor was named by a
      response accepted for exactly the pages before it. */
  ghost predicate Backed<R>(log: seq<Accepted<R>>, h: History) {
    && |h| > 0
    && h[0] == None
    && forall k :: 1 <= k < |h| ==> h[k].Some? && Named(log, h[..k], h[k])
  }

  ghost predicate Inv<R>(w: World<R>) {
    && Backed(w.log, w.app.cursors)
    && (w.app.next.Some? ==> Named(w.log, w.app.cursors, w.app.next))
    && (forall f :: f in w.flights ==> f.generation <= w.app.generation && Backed(w.log, f.history))
    && (forall f, g :: f in w.flights && g in w.flights && f.generation == g.generation ==> f == g)
    && (w.app.active ==> (w.app.pending <==> exists f :: f in w.flights && f.generation == w.app.generation))
    && (!w.app.active ==> forall f :: f in w.flights ==> f.generation < w.app.generation)
    && Shows(w)
  }

  /** The page shows its last accepted response, or stands at the first page
      after a restart. */
  ghost predicate Shows<R>(w: World<R>) {
    match w.shown
    case Some(last) =>
      && w.app.rows == last.page.rows
      && w.app.cursors == last.history
      && w.app.next == last.page.next
      && w.app.total == last.page.total
      && w.log != [] && w.log[|w.log| - 1] == last
    case None => w.app.cursors == FIRST_PAGE && w.app.next == None && w.app.total == None
  }

  lemma {:induction false} LogGrows<R>(log: seq<Accepted<R>>, a: Accepted<R>, h: History)
    requires Backed(log, h)
    ensures Backed(log + [a], h)
  {
    forall k | 1 <= k < |h| ensures Named(log + [a], h[..k], h[k]) {
      NamedGrows(log, a, h[..k], h[k]);
    }
  }

  lemma {:induction false} NamedGrows<R>(log: seq<Accepted<R>>, a: Accepted<R>, h: History, cursor: Option<string>)
    requires Named(log, h, cursor)
    ensures Named(log + [a], h, cursor)
  {
    var k :| 0 <= k < |log| && log[k].history == h && log[k].page.next == cursor;
    assert (log + [a])[k] == log[k];
  }

  lemma {:induction false} BackedPrefix<R>(log: seq<Accepted<R>>, h: History)
    requires Backed(log, h) && |h| > 1
    ensures Backed(log, h[..|h| - 1])
  {
    var p := h[..|h| - 1];
    forall k | 1 <= k < |p| ensures Named(log, p[..k], p[k]) {
      assert p[..k] == h[..k];
    }
  }

  lemma {:induction false} BackedExtension<R>(log: seq<Accepted<R>>, h: History, cursor: Option<string>)
    requires Backed(log, h) && cursor.Some? && Named(log, h, cursor)
    ensures Backed(log, h + [cursor])
  {
    var n := h + [cursor];
    forall k | 1 <= k < |n| ensures n[k].Some? && Named(log, n[..k], n[k]) {
      assert n[..k] == h[..k];
      assert h[..|h|] == h;
    }
  }

  lemma {:induction false} LaunchKeepsInv<R>(w: World<R>, a: App<R>, history: History)
    requires Inv(w) && Backed(w.log, history)
    requires a == w.app || a == Restarted(w.app)
    ensures Inv(Launch(w, a, history).(shown := if a == w.app then w.shown else None))
  {
    if a.active {
      assert Flight(a.generation + 1, history) in Launch(w, a, history).flights;
    }
  }

  lemma {:induction false} SettleKeepsInv<R>(w: World<R>, e: Event<R>)
    requires Inv(w) && Can(w, e) && (e.Arrive? || e.Reject?)
    ensures Inv(Do(w, e))
  {
    var f := e.flight;
    if e.Arrive? && f.generation == w.app.generation {
      var a := Accepted(f.history, e.page);
      forall h | Backed(w.log, h) ensures Backed(w.log + [a], h) {
        LogGrows(w.log, a, h);
      }
      assert (w.log + [a])[|w.log|] == a;
      assert Named(w.log + [a], f.history, e.page.next);
    }
  }

  lemma {:induction false} StepKeepsInv<R>(w: World<R>, e: Event<R>)
    requires Inv(w) && Can(w, e)
    ensures Inv(Do(w, e))
  {
    match e {
      case Refresh => LaunchKeepsInv(w, Restarted(w.app), FIRST_PAGE);
      case Reset =>
      case Previous =>
        if MayGoBack(w.app) {
          BackedPrefix(w.log, w.app.cursors);
          LaunchKeepsInv(w, w.app, w.app.cursors[..|w.app.cursors| - 1]);
        }
      case Next =>
        if MayGoOn(w.app) {
          BackedExtension(w.log, w.app.cursors, w.app.next);
          LaunchKeepsInv(w, w.app, w.app.cursors + [w.app.next]);
        }
      case Arrive(_, _) => SettleKeepsInv(w, e);
      case Reject(_, _) => SettleKeepsInv(w, e);
      case Unmount =>
    }
  }

  lemma {:induction false} RunKeepsInv<R>(w: World<R>, events: seq<Event<R>>)
    requires Inv(w) && IsRun(w, events)
    ensures Inv(End(w, events))
    decreases |events|
  {
    if events != [] {
      StepKeepsInv(w, events[0]);
      RunKeepsInv(Do(w, events[0]), events[1..]);
    }
  }

  // ----- What every run promises

  /** The cursor history of every reachable page, and of every request under
      way, starts at the first page and was named cursor by cursor. */
  lemma {:induction false} HistoryIsNamed<R>(events: seq<Event<R>>)
    requires IsRun(Start(), events)
    ensures var w := End(Start(), events);
            && Backed(w.log, w.app.cursors)
            && (forall f :: f in w.flights ==> Backed(w.log, f.history))
            && Shows(w)
  {
    RunKeepsInv(Start(), events);
  }

  /** While mounted, pending holds exactly while the request of the current
      generation is under way. */
  lemma {:induction false} PendingExactly<R>(events: seq<Event<R>>)
    requires IsRun(Start(), events) && End(Start(), events).app.active
    ensures var w := End(Start(), events);
            w.app.pending <==> exists f :: f in w.flights && f.generation == w.app.generation
  {
    RunKeepsInv(Start(), events);
  }

  /** The request was issued after every other request still under way. */
  predicate Latest<R>(w: World<R>, f: Flight) {
    f in w.flights && forall g :: g in w.flights && g != f ==> g.generation < f.generation
  }

  /** Rows change only by the response of the latest request of a mounted page,
      which then shows exactly that response, or by a reset. */
  lemma {:induction false} OnlyTheLatestChangesRows<R>(events: seq<Event<R>>, e: Event<R>)
    requires IsRun(Start(), events) && Can(End(Start(), events), e)
    requires Do(End(Start(), events), e).app.rows != End(Start(), events).app.rows
    ensures var w := End(Start(), events);
            || e.Reset?
            || (e.Arrive? && w.app.active && Latest(w, e.flight) && e.flight.generation == w.app.generation &&
                Do(w, e).app.rows == e.page.rows && Do(w, e).app.cursors == e.flight.history)
  {
    RunKeepsInv(Start(), events);
  }

  /** What every run promises holds of every page: its cursors were named one by one
      from the first page on, it shows its last accepted response or stands restarted,
      and while mounted it is pending exactly while its latest request is under way. */
  lemma {:induction false} EveryPageKeeps<R>(page: ServerPage<R>)
    requires page.Valid()
    ensures var w := End(Start(), page.events);
            && Backed(w.log, page.cursors) && Shows(w) && w.app.rows == page.rows
            && (page.active ==> (page.pending <==> exists f :: f in page.Flights() && f.generation == page.generation))
  {
    HistoryIsNamed(page.events);
    if page.active {
      PendingExactly(page.events);
    }
  }

  predicate Settling<R>(events: seq<Event<R>>) {
    forall i :: 0 <= i < |events| ==> events[i].Arrive? || events[i].Reject?
  }

  lemma {:induction false} StaleChangesNothing<R>(w: World<R>, events: seq<Event<R>>)
    requires Inv(w) && IsRun(w, events) && Settling(events)
    requires forall f :: f in w.flights ==> f.generation != w.app.generation
    ensures End(w, events).app == w.app
    decreases |events|
  {
    if events != [] {
      StepKeepsInv(w, events[0]);
      StaleChangesNothing(Do(w, events[0]), events[1..]);
    }
  }

  /** The order of responses does not matter: however the requests under way
      settle, the page ends with what the latest one brings. */
  lemma {:induction false} LatestWins<R>(w: World<R>, events: seq<Event<R>>, k: nat)
    requires Inv(w) && IsRun(w, events) && Settling(events)
    requires k < |events| && events[k].Arrive? && events[k].flight.generation == w.app.generation
    ensures End(w, events).app == Succeeded(w.app, events[k].flight, events[k].page)
    decreases |events|
  {
    var e := events[0];
    StepKeepsInv(w, e);
    if k == 0 {
      assert forall f :: f in Do(w, e).flights ==> f.generation != w.app.generation;
      StaleChangesNothing(Do(w, e), events[1..]);
    } else {
      if e.flight.generation == w.app.generation {
        GoneForGood(Do(w, e), events[1..], k - 1, w.app.generation);
        assert false;
      }
      LatestWins(Do(w, e), events[1..], k - 1);
    }
  }

  /** A request settles once. */
  lemma {:induction false} GoneForGood<R>(w: World<R>, events: seq<Event<R>>, k: nat, generation: nat)
    requires IsRun(w, events) && Settling(events) && k < |events|
    requires forall f :: f in w.flights ==> f.generation != generation
    ensures events[k].flight.generation != generation
    decreases |events|
  {
    if k > 0 {
      GoneForGood(Do(w, events[0]), events[1..], k - 1, generation);
    }
  }
}
