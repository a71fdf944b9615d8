/** The dashboard script (`pi3ctrl.js`): the colour badge chosen for each
    service from its status report, the element id of a service, the
    progress-bar counter that paces the status refresh, and the series built
    for the trigger charts. The DOM is reduced to the few element properties
    these functions touch. */
module Dashboard {
  import opened Base
  import opened Text

  // ---- service badges

  /** The four badge classes the script manages. */
  const Badges: set<string> := {"bg-success", "bg-warning", "bg-danger", "bg-secondary"}

  /** One entry of the `/_systemd_status` reply, as JSON values: `None` is `null`. */
  datatype ServiceReport = ServiceReport(returncode: Option<int>, status: Option<string>,
                                         stdout: Option<string>, stderr: Option<string>)

  /** The two elements of a service: its status badge (text and class list)
      and the body of its response panel. */
  datatype Widget = Widget(badgeText: string, classes: set<string>, body: string)

  /** Assigning `null` to `innerHTML` leaves the element empty. */
  function Html(v: Option<string>): string {
    if v.Some? then v.value else ""
  }

  /** The badge class for a report that is not skipped: `not found`
      (return code 4) is grey, success green, a unit still activating or
      inactive yellow, anything else red. Reading `status.includes` on a `null`
      status throws `TypeError`. */
  function BadgeFor(returncode: int, status: Option<string>): (r: Result<string>)
    ensures r.Ok? ==> r.value in Badges
    ensures returncode == 4 ==> r == Ok("bg-secondary")
    ensures returncode == 0 ==> r == Ok("bg-success")
    ensures returncode != 4 && returncode != 0 ==>
              (r.Raise? <==> status.None?)
              && (r == Ok("bg-warning") <==> status.Some? && (Contains(status.value, "activating")
                                                             || Contains(status.value, "inactive")))
    ensures returncode != 4 && returncode != 0 && status.Some?
            && !Contains(status.value, "activating") && !Contains(status.value, "inactive")
            ==> r == Ok("bg-danger")
    ensures r.Raise? ==> r.exc == TypeError
  {
    if returncode == 4 then Ok("bg-secondary")
    else if returncode == 0 then Ok("bg-success")
    else if status.None? then Raise(TypeError)
    else if Contains(status.value, "activating") || Contains(status.value, "inactive") then Ok("bg-warning")
    else Ok("bg-danger")
  }

  /** The class-list update: nothing when the chosen class is present,
      otherwise the other three badges are removed and the chosen one added. */
  function SetBadge(classes: set<string>, chosen: string): (r: set<string>)
    requires chosen in Badges
    ensures chosen in r
    ensures r - Badges == classes - Badges
    ensures |classes * Badges| <= 1 ==> r * Badges == {chosen}
  {
    if chosen in classes then
      assert |classes * Badges| <= 1 ==> classes * Badges == {chosen} by {
        if |classes * Badges| <= 1 {
          SingletonOf(classes * Badges, chosen);
        }
      }
      classes
    else classes - (Badges - {chosen}) + {chosen}
  }

  lemma SingletonOf(s: set<string>, x: string)
    requires x in s && |s| <= 1
    ensures s == {x}
  {
    var rest := s - {x};
    assert |s| == |rest| + 1;
    assert rest == {};
  }

  /** Setting the same badge twice is setting it once. */
  lemma SetBadgeIdempotent(classes: set<string>, chosen: string)
    requires chosen in Badges
    ensures SetBadge(SetBadge(classes, chosen), chosen) == SetBadge(classes, chosen)
  {
  }

  /** The effect of one report on its service's widget, and whether the
      handler threw. A `null` return code leaves the widget alone. */
  function UpdateWidget(w: Widget, rep: ServiceReport): (r: (Widget, bool))
    ensures rep.returncode.None? ==> r == (w, false)
    ensures rep.returncode == Some(4) ==>
              r == (Widget("not found", SetBadge(w.classes, "bg-secondary"), Html(rep.stderr)), false)
    ensures rep.returncode.Some? && rep.returncode.value != 4 ==>
              r.0.badgeText == Html(rep.status) && r.0.body == Html(rep.stdout)
    ensures r.1 <==> rep.returncode.Some? && BadgeFor(rep.returncode.value, rep.status).Raise?
    ensures r.1 ==> r.0.classes == w.classes
    ensures rep.returncode.Some? && !r.1 ==>
              r.0.classes == SetBadge(w.classes, BadgeFor(rep.returncode.value, rep.status).value)
  {
    match rep.returncode
    case None => (w, false)
    case Some(code) =>
      if code == 4 then (Widget("not found", SetBadge(w.classes, "bg-secondary"), Html(rep.stderr)), false)
      else
        var shown := Widget(Html(rep.status), w.classes, Html(rep.stdout));
        match BadgeFor(code, rep.status)
        case Raise(_) => (shown, true)
        case Ok(badge) => (shown.(classes := SetBadge(w.classes, badge)), false)
  }

  /** After a report with a return code, a widget that carried at most one
      badge carries exactly the one the report calls for. */
  lemma OneBadgeAfterUpdate(w: Widget, rep: ServiceReport)
    requires |w.classes * Badges| <= 1
    requires rep.returncode.Some? && BadgeFor(rep.returncode.value, rep.status).Ok?
    ensures UpdateWidget(w, rep).0.classes * Badges == {BadgeFor(rep.returncode.value, rep.status).value}
  {
  }

  /** `service.replace('.', '-')`: JavaScript replaces only the first `.`. */
  function ReplaceFirstDot(s: string): (r: string)
    ensures |r| == |s|
    ensures forall k :: 0 <= k < |s| && s[k] == '.' && !Contains(s[..k], ".") ==> r[k] == '-'
    ensures forall k :: 0 <= k < |s| && (s[k] != '.' || Contains(s[..k], ".")) ==> r[k] == s[k]
  {
    match IndexOf(s, ".")
    case None =>
      forall k | 0 <= k < |s| ensures s[k] != '.' {
        OccursAtChar(s, '.', k);
      }
      s
    case Some(i) =>
      var r := s[..i] + "-" + s[i + 1..];
      OccursAtChar(s, '.', i);
      forall k | 0 <= k < |s| && k != i
        ensures r[k] == s[k]
        ensures k < i ==> s[k] != '.'
        ensures k > i ==> Contains(s[..k], ".")
      {
        OccursAtChar(s, '.', k);
        if k > i {
          OccursAtChar(s[..k], '.', i);
        }
      }
      PrefixBeforeFirstLacks(s, ".", i);
      r
  }

  /** `'#' + service.replace('.', '-')`. */
  function ElementId(service: string): (id: string)
    ensures |id| == |service| + 1 && id[0] == '#'
  {
    "#" + ReplaceFirstDot(service)
  }

  /** In an element id only the first `.` of the service name has become
      `-`: every other character, later dots included, is kept. */
  lemma ElementIdKeepsLaterDots(service: string, k: int)
    requires 0 <= k < |service|
    ensures IndexOf(service, ".") == Some(k) ==> ElementId(service)[k + 1] == '-'
    ensures IndexOf(service, ".") != Some(k) ==> ElementId(service)[k + 1] == service[k]
  {
    var id := ElementId(service);
    match IndexOf(service, ".")
    case None =>
    case Some(i) =>
      assert id == "#" + service[..i] + "-" + service[i + 1..];
      if k < i {
        assert id[k + 1] == service[..i][k];
      } else if k > i {
        assert id[k + 1] == service[i + 1..][k - i - 1];
      }
  }

  /** The id of a name whose first `.` follows a dot-free stem: for
      `nginx.service` this is `#nginx-service`. */
  lemma ElementIdAtFirstDot(a: string, b: string)
    requires !Contains(a, ".")
    ensures ElementId(a + "." + b) == "#" + a + "-" + b
  {
    FirstSeparatorAfter(a, b, '.');
    var s := a + "." + b;
    assert s[..|a|] == a && s[|a| + 1..] == b;
  }

  /** The `for` loop of `statusUpdate` over the reply's entries, on a page
      mapping element ids to widgets. An entry with a `null` return code is
      skipped; a service without elements on the page, or a report whose
      status is `null` where it is read, throws and ends the loop. */
  function StatusUpdate(page: map<string, Widget>, entries: seq<(string, ServiceReport)>): (r: map<string, Widget>)
    ensures r.Keys == page.Keys
    ensures forall id :: id in page && (forall k :: 0 <= k < |entries| ==> ElementId(entries[k].0) != id)
                         ==> r[id] == page[id]
  {
    UpdatesFacts(UpdateWidget, ElementId, page, entries, 0);
    Updates(UpdateWidget, ElementId, page, entries, 0)
  }

  /** The loop from entry `i` on, for any step `apply` that updates one
      widget and says whether the handler threw; `StatusUpdate` runs it from
      the first entry with `UpdateWidget`. */
  function Updates(apply: (Widget, ServiceReport) -> (Widget, bool), key: string -> string, page: map<string, Widget>,
                   entries: seq<(string, ServiceReport)>, i: nat): map<string, Widget>
    requires i <= |entries|
    decreases |entries| - i
  {
    if i == |entries| then page
    else
      var (service, rep) := entries[i];
      var id := key(service);
      if rep.returncode.None? then Updates(apply, key, page, entries, i + 1)
      else if id !in page then page
      else
        var (w, threw) := apply(page[id], rep);
        if threw then page[id := w] else Updates(apply, key, page[id := w], entries, i + 1)
  }

  lemma UpdatesFacts(apply: (Widget, ServiceReport) -> (Widget, bool), key: string -> string, page: map<string, Widget>,
                     entries: seq<(string, ServiceReport)>, i: nat)
    requires i <= |entries|
    ensures Updates(apply, key, page, entries, i).Keys == page.Keys
    ensures forall id :: id in page && (forall k :: i <= k < |entries| ==> key(entries[k].0) != id)
                         ==> Updates(apply, key, page, entries, i)[id] == page[id]
  {
    UpdatesKeys(apply, key, page, entries, i);
    forall id | id in page && (forall k :: i <= k < |entries| ==> key(entries[k].0) != id)
      ensures Updates(apply, key, page, entries, i)[id] == page[id]
    {
      KeepsUnnamed(apply, key, page, entries, i, id);
    }
  }

  lemma {:induction false} UpdatesKeys(apply: (Widget, ServiceReport) -> (Widget, bool), key: string -> string, page: map<string, Widget>,
                                       entries: seq<(string, ServiceReport)>, i: nat)
    requires i <= |entries|
    ensures Updates(apply, key, page, entries, i).Keys == page.Keys
    decreases |entries| - i
  {
    if i < |entries| {
      var (service, rep) := entries[i];
      var id := key(service);
      if rep.returncode.None? {
        UpdatesKeys(apply, key, page, entries, i + 1);
      } else if id in page {
        var (w, threw) := apply(page[id], rep);
        if !threw {
          UpdatesKeys(apply, key, page[id := w], entries, i + 1);
        }
      }
    }
  }

  /** An element no entry from `i` on names keeps its widget. */
  lemma {:induction false} KeepsUnnamed(apply: (Widget, ServiceReport) -> (Widget, bool), key: string -> string, page: map<string, Widget>,
                                        entries: seq<(string, ServiceReport)>, i: nat, id: string)
    requires i <= |entries|
    requires id in page && forall m :: i <= m < |entries| ==> key(entries[m].0) != id
    ensures id in Updates(apply, key, page, entries, i) && Updates(apply, key, page, entries, i)[id] == page[id]
    decreases |entries| - i
  {
    if i < |entries| {
      var (service, rep) := entries[i];
      var named := key(service);
      if rep.returncode.None? {
        KeepsUnnamed(apply, key, page, entries, i + 1, id);
      } else if named in page {
        var (w, threw) := apply(page[named], rep);
        if !threw {
          KeepsUnnamed(apply, key, page[named := w], entries, i + 1, id);
        }
      }
    }
  }

  /** Entries after a throwing one are never applied: a reply whose first
      entry throws changes only that service's texts. */
  lemma StatusUpdateStopsAtThrow(page: map<string, Widget>, entries: seq<(string, ServiceReport)>)
    requires |entries| > 0 && ElementId(entries[0].0) in page
    requires UpdateWidget(page[ElementId(entries[0].0)], entries[0].1).1
    ensures StatusUpdate(page, entries)
            == page[ElementId(entries[0].0) := UpdateWidget(page[ElementId(entries[0].0)], entries[0].1).0]
  {
  }

  /** A report that does not make the handler throw: no return code, or one
      `badgeFor` knows. */
  predicate Passes(rep: ServiceReport) {
    rep.returncode.Some? ==> BadgeFor(rep.returncode.value, rep.status).Ok?
  }

  /** Every service of the reply has its elements on the page, no two
      services share an element id, and no report throws. */
  predicate Applicable(page: map<string, Widget>, entries: seq<(string, ServiceReport)>) {
    && (forall k :: 0 <= k < |entries| ==> ElementId(entries[k].0) in page)
    && (forall j, k :: 0 <= j < k < |entries| ==> ElementId(entries[j].0) != ElementId(entries[k].0))
    && (forall k :: 0 <= k < |entries| ==> Passes(entries[k].1))
  }

  /** On a reply that is applicable to the page, every service's widget ends
      up exactly as `UpdateWidget` makes it from its state before the loop. */
  lemma StatusUpdateApplies(page: map<string, Widget>, entries: seq<(string, ServiceReport)>)
    requires Applicable(page, entries)
    ensures forall k :: 0 <= k < |entries| ==>
              StatusUpdate(page, entries)[ElementId(entries[k].0)]
              == UpdateWidget(page[ElementId(entries[k].0)], entries[k].1).0
  {
    forall k | 0 <= k < |entries|
      ensures StatusUpdate(page, entries)[ElementId(entries[k].0)]
              == UpdateWidget(page[ElementId(entries[k].0)], entries[k].1).0
    {
      UpdatesAt(UpdateWidget, ElementId, page, entries, 0, k);
    }
  }

  /** From entry `i` on, entry `k` is reached when no entry before it throws
      and every one has its elements; it is applied once, and no other entry
      names its element. A skipped report leaves the widget to `apply`. */
  lemma {:induction false} UpdatesAt(apply: (Widget, ServiceReport) -> (Widget, bool), key: string -> string, page: map<string, Widget>,
                                     entries: seq<(string, ServiceReport)>, i: nat, k: nat)
    requires i <= k < |entries|
    requires forall m :: i <= m <= k ==> key(entries[m].0) in page
    requires forall m, w :: i <= m <= k ==> !apply(w, entries[m].1).1
    requires forall m, w :: i <= m <= k && entries[m].1.returncode.None? ==> apply(w, entries[m].1).0 == w
    requires forall m :: i <= m < |entries| && m != k ==> key(entries[m].0) != key(entries[k].0)
    ensures var r, id := Updates(apply, key, page, entries, i), key(entries[k].0);
            id in r && r[id] == apply(page[id], entries[k].1).0
    decreases k - i
  {
    var next := UpdatesStep(apply, key, page, entries, i);
    if k == i {
      KeepsUnnamed(apply, key, next, entries, i + 1, key(entries[k].0));
    } else {
      UpdatesAt(apply, key, next, entries, i + 1, k);
    }
  }

  /** One turn of the loop over an entry that does not throw: the entry's
      widget is updated and the loop goes on with the next. */
  lemma UpdatesStep(apply: (Widget, ServiceReport) -> (Widget, bool), key: string -> string, page: map<string, Widget>,
                    entries: seq<(string, ServiceReport)>, i: nat)
    returns (next: map<string, Widget>)
    requires i < |entries| && key(entries[i].0) in page
    requires !apply(page[key(entries[i].0)], entries[i].1).1
    requires entries[i].1.returncode.None? ==>
               apply(page[key(entries[i].0)], entries[i].1).0 == page[key(entries[i].0)]
    ensures next == page[key(entries[i].0) := apply(page[key(entries[i].0)], entries[i].1).0]
    ensures next.Keys == page.Keys
    ensures Updates(apply, key, page, entries, i) == Updates(apply, key, next, entries, i + 1)
  {
    var id := key(entries[i].0);
    next := page[id := apply(page[id], entries[i].1).0];
    if entries[i].1.returncode.None? {
      assert next == page;
    }
  }

  // ---- the refresh pacing

  /** One 100 ms tick of `progressBarWidth`: at 100 the bar resets and the
      status refresh fires, otherwise it grows by one. */
  function Tick(width: nat): (r: (nat, bool))
    requires width <= 100
    ensures r.0 <= 100
    ensures r.1 <==> width == 100
    ensures r.0 == (width + 1) % 101
  {
    if width == 100 then (0, true) else (width + 1, false)
  }

  /** The bar width and the number of refreshes after `n` ticks from 0. */
  function Ticks(n: nat): (r: (nat, nat))
    ensures r.0 <= 100
  {
    if n == 0 then (0, 0)
    else
      var (w, fired) := Ticks(n - 1);
      var (w', f) := Tick(w);
      (w', fired + if f then 1 else 0)
  }

  /** The bar shows `n mod 101` percent and the status has been refreshed
      once per 101 ticks. */
  lemma {:induction false} TicksClosedForm(n: nat)
    ensures Ticks(n) == (n % 101, n / 101)
    decreases n
  {
    if n > 0 {
      TicksClosedForm(n - 1);
      var m := n - 1;
      if m % 101 == 100 {
        assert n % 101 == 0 && n / 101 == m / 101 + 1;
      } else {
        assert n % 101 == m % 101 + 1 && n / 101 == m / 101;
      }
    }
  }

  // ---- chart series

  /** Keys of a JSON object are distinct. */
  predicate DistinctKeys(entries: seq<(nat, int)>) {
    forall i, j :: 0 <= i < j < |entries| ==> entries[i].0 != entries[j].0
  }

  /** The count an object gives for `slot`, 0 when it has none. */
  function CountFor(entries: seq<(nat, int)>, slot: nat): int
  {
    if |entries| == 0 then 0
    else if entries[|entries| - 1].0 == slot then entries[|entries| - 1].1
    else CountFor(entries[..|entries| - 1], slot)
  }

  lemma {:induction false} CountForListed(entries: seq<(nat, int)>, i: nat)
    requires DistinctKeys(entries) && i < |entries|
    ensures CountFor(entries, entries[i].0) == entries[i].1
    decreases |entries|
  {
    if i < |entries| - 1 {
      CountForListed(entries[..|entries| - 1], i);
    }
  }

  lemma {:induction false} CountForUnlisted(entries: seq<(nat, int)>, slot: nat)
    requires forall i :: 0 <= i < |entries| ==> entries[i].0 != slot
    ensures CountFor(entries, slot) == 0
    decreases |entries|
  {
    if |entries| > 0 {
      CountForUnlisted(entries[..|entries| - 1], slot);
    }
  }

  /** `Array(size).fill(0)` followed by `data[parseInt(key)] = count` for
      every entry. The server only sends keys below `size` (hours 0-23,
      weekdays 0-6). */
  method BucketSeries(size: nat, entries: seq<(nat, int)>) returns (data: seq<int>)
    requires forall i :: 0 <= i < |entries| ==> entries[i].0 < size
    ensures |data| == size
    ensures forall slot :: 0 <= slot < size ==> data[slot] == CountFor(entries, slot)
  {
    data := seq(size, _ => 0);
    var n := 0;
    while n < |entries|
      invariant n <= |entries| && |data| == size
      invariant forall slot :: 0 <= slot < size ==> data[slot] == CountFor(entries[..n], slot)
    {
      assert entries[..n + 1][..n] == entries[..n];
      data := data[entries[n].0 := entries[n].1];
      n := n + 1;
    }
    assert entries[..n] == entries;
  }

  /** The hour series: 24 slots, slot `h` holding the count for hour `h`. */
  method HourSeries(entries: seq<(nat, int)>) returns (data: seq<int>)
    requires DistinctKeys(entries)
    requires forall i :: 0 <= i < |entries| ==> entries[i].0 < 24
    ensures |data| == 24
    ensures forall i :: 0 <= i < |entries| ==> data[entries[i].0] == entries[i].1
    ensures forall h :: 0 <= h < 24 && (forall i :: 0 <= i < |entries| ==> entries[i].0 != h) ==> data[h] == 0
  {
    data := BucketSeries(24, entries);
    forall i | 0 <= i < |entries|
      ensures data[entries[i].0] == entries[i].1
    {
      CountForListed(entries, i);
    }
    forall h | 0 <= h < 24 && (forall i :: 0 <= i < |entries| ==> entries[i].0 != h)
      ensures data[h] == 0
    {
      CountForUnlisted(entries, h);
    }
  }

  /** The weekday series: 7 slots, slot `d` holding the count for weekday `d`. */
  method WeekdaySeries(entries: seq<(nat, int)>) returns (data: seq<int>)
    requires DistinctKeys(entries)
    requires forall i :: 0 <= i < |entries| ==> entries[i].0 < 7
    ensures |data| == 7
    ensures forall i :: 0 <= i < |entries| ==> data[entries[i].0] == entries[i].1
    ensures forall d :: 0 <= d < 7 && (forall i :: 0 <= i < |entries| ==> entries[i].0 != d) ==> data[d] == 0
  {
    data := BucketSeries(7, entries);
    forall i | 0 <= i < |entries|
      ensures data[entries[i].0] == entries[i].1
    {
      CountForListed(entries, i);
    }
    forall d | 0 <= d < 7 && (forall i :: 0 <= i < |entries| ==> entries[i].0 != d)
      ensures data[d] == 0
    {
      CountForUnlisted(entries, d);
    }
  }

  /** A point of a date series: `[timestamp, count]`. */
  type Point = (int, int)

  predicate SortedByTime(xs: seq<Point>) {
    forall i, j :: 0 <= i < j < |xs| ==> xs[i].0 <= xs[j].0
  }

  /** Inserts a point after every point that is not later. */
  function Insert(p: Point, xs: seq<Point>): (r: seq<Point>)
    requires SortedByTime(xs)
    ensures SortedByTime(r)
    ensures multiset(r) == multiset(xs) + multiset{p}
  {
    if |xs| == 0 then [p]
    else if p.0 < xs[0].0 then [p] + xs
    else
      var rest := Insert(p, xs[1..]);
      InsertBehind(p, xs, rest);
      [xs[0]] + rest
  }

  /** A point no later than both `p` and the rest of `xs` can head their merge. */
  lemma InsertBehind(p: Point, xs: seq<Point>, rest: seq<Point>)
    requires SortedByTime(xs) && |xs| > 0 && xs[0].0 <= p.0
    requires SortedByTime(rest) && multiset(rest) == multiset(xs[1..]) + multiset{p}
    ensures SortedByTime([xs[0]] + rest)
    ensures multiset([xs[0]] + rest) == multiset(xs) + multiset{p}
  {
    forall j | 0 <= j < |rest|
      ensures xs[0].0 <= rest[j].0
    {
      assert rest[j] in multiset(rest);
      if rest[j] != p {
        assert rest[j] in xs[1..];
      }
    }
    var r := [xs[0]] + rest;
    forall i, j | 0 <= i < j < |r|
      ensures r[i].0 <= r[j].0
    {
      assert r[j] == rest[j - 1];
      if i > 0 {
        assert r[i] == rest[i - 1];
      }
    }
    assert xs == [xs[0]] + xs[1..];
  }

  /** `data.sort((a, b) => a[0] - b[0])`: the points in ascending time order,
      none lost or added. */
  function SortByTime(xs: seq<Point>): (r: seq<Point>)
    ensures SortedByTime(r)
    ensures multiset(r) == multiset(xs)
  {
    if |xs| == 0 then []
    else
      assert xs == xs[..|xs| - 1] + [xs[|xs| - 1]];
      Insert(xs[|xs| - 1], SortByTime(xs[..|xs| - 1]))
  }
}
