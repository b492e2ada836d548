/**
 * The events controller over an abstract event store: the stored redirect
 * events and the named per-user views defined over them.
 *
 * The database calls (create-or-replace view, insert, grouped query) are
 * replaced by their meaning on this state; whether each of them succeeds is
 * an input. The process-wide lock around view creation and the background
 * goroutine of the logging path are not modelled: every operation runs
 * sequentially to completion.
 */
module EventsController {
  import opened Optional
  import opened DecimalText
  import opened EventRecords
  import opened RedirectCounts

  /** The name of the view of userId's events: table name, '_' and the decimal user id. */
  function ViewName(tableName: string, userId: Uint64): string {
    tableName + "_" + Decimal(userId)
  }

  /** Reads the user id back out of a view name built for tableName. */
  function UserIdOfView(tableName: string, viewName: string): Option<nat> {
    var prefix := tableName + "_";
    if |viewName| > |prefix| && viewName[..|prefix|] == prefix && AllDigits(viewName[|prefix|..])
    then Some(ParseDecimal(viewName[|prefix|..]))
    else None
  }

  /** The view name gives back the user id it was built from. */
  lemma ViewNameRoundTrip(tableName: string, userId: Uint64)
    ensures UserIdOfView(tableName, ViewName(tableName, userId)) == Some(userId as nat)
  {
    var name := ViewName(tableName, userId);
    var prefix := tableName + "_";
    assert name[..|prefix|] == prefix;
    assert name[|prefix|..] == Decimal(userId);
    ParseDecimalOfDecimal(userId);
  }

  /** Distinct user ids get distinct view names. */
  lemma ViewNameInjective(tableName: string, a: Uint64, b: Uint64)
    ensures ViewName(tableName, a) == ViewName(tableName, b) ==> a == b
  {
    var prefix := tableName + "_";
    if ViewName(tableName, a) == ViewName(tableName, b) {
      assert Decimal(a) == ViewName(tableName, a)[|prefix|..];
      assert Decimal(b) == ViewName(tableName, b)[|prefix|..];
      DecimalInjective(a, b);
    }
  }

  /** The query a view is defined by: the events "WHERE creator_id = ?". */
  datatype ViewQuery = WhereCreatorId(creatorId: Uint64)

  /** The filter of a view's query. */
  predicate Admits(q: ViewQuery, e: EventRedirect) {
    e.creatorId == q.creatorId
  }

  /** The rows a view shows over the stored events, in store order. */
  function ViewRowsOf(q: ViewQuery, events: seq<EventRedirect>): seq<EventRedirect> {
    CreatedBy(events, q.creatorId)
  }

  /** A view shows exactly the stored events its query admits. */
  lemma ViewRowsAdmitted(q: ViewQuery, events: seq<EventRedirect>)
    ensures forall e :: e in ViewRowsOf(q, events) <==> e in events && Admits(q, e)
  {
    CreatedByExactly(events, q.creatorId);
  }

  /** Every view in the namespace is the view of the user its own name spells. */
  predicate ViewsWellNamed(tableName: string, views: map<string, ViewQuery>) {
    forall name :: name in views ==> name == ViewName(tableName, views[name].creatorId)
  }

  /**
   * A view found under the name of userId's view filters on userId, even when
   * it is left over from an earlier call: no other user's events are visible
   * through the name.
   */
  lemma ViewUnderNameFiltersOwner(tableName: string, views: map<string, ViewQuery>, userId: Uint64)
    requires ViewsWellNamed(tableName, views)
    requires ViewName(tableName, userId) in views
    ensures views[ViewName(tableName, userId)] == WhereCreatorId(userId)
  {
    var q := views[ViewName(tableName, userId)];
    ViewNameInjective(tableName, q.creatorId, userId);
  }

  /** A handle on a named table or view (a gorm.DB scoped by Table(name)). */
  datatype TableHandle = TableHandle(table: string)

  /** Why a count query failed. */
  datatype QueryError = StoreFailure | NoSuchTable(table: string)

  /** The result of the count query: rows, or the error instead of them. */
  datatype CountResult = Counts(rows: seq<CountRow>) | QueryFailed(error: QueryError)

  /**
   * Runs the grouped count over the rows a handle shows (None when the table
   * behind the handle does not exist) and collects the result rows in the
   * order the store yields them. A failing query returns only its error.
   * readError is Some(k) when advancing the cursor fails after k rows have
   * been read: the loop then ends, and since the cursor's error is never
   * inspected the rows read so far come back as a success.
   */
  method QueryRedirectCounts(handle: TableHandle, visible: Option<seq<EventRedirect>>, storeOk: bool,
                             readError: Option<nat>)
    returns (r: CountResult)
    ensures r.Counts? <==> storeOk && visible.Some?
    ensures !storeOk ==> r == QueryFailed(StoreFailure)
    ensures storeOk && visible.None? ==> r == QueryFailed(NoSuchTable(handle.table))
    ensures r.Counts? ==> r.rows <= GroupCount(ShortUrls(visible.value))
    ensures r.Counts? && readError.None? ==> r.rows == GroupCount(ShortUrls(visible.value))
    ensures r.Counts? && readError.Some? ==>
      |r.rows| == if readError.value < |GroupCount(ShortUrls(visible.value))| then readError.value
                  else |GroupCount(ShortUrls(visible.value))|
  {
    if !storeOk {
      return QueryFailed(StoreFailure);
    }
    if visible.None? {
      return QueryFailed(NoSuchTable(handle.table));
    }
    var yielded := GroupCount(ShortUrls(visible.value));
    var data: seq<CountRow> := [];
    var i := 0;
    while i < |yielded| && (readError.None? || i < readError.value)
      invariant 0 <= i <= |yielded|
      invariant readError.Some? ==> i <= readError.value
      invariant data == yielded[..i]
    {
      data := data + [yielded[i]];
      i := i + 1;
    }
    return Counts(data);
  }

  class EventsStore {
    /** The base table's name (TableName() of the event model). */
    const tableName: string
    /** The stored redirect events, in insertion order. */
    var events: seq<EventRedirect>
    /** The view namespace: each view's name and defining query. */
    var views: map<string, ViewQuery>

    ghost predicate Valid()
      reads this
    {
      ViewsWellNamed(tableName, views)
    }

    /** The rows a named table shows, or None when no such view exists. */
    function TableRows(handle: TableHandle): (r: Option<seq<EventRedirect>>)
      reads this
      ensures r.Some? <==> handle.table in views
      ensures r.Some? ==> forall e :: e in r.value <==> e in events && Admits(views[handle.table], e)
    {
      if handle.table in views then
        ViewRowsAdmitted(views[handle.table], events);
        Some(ViewRowsOf(views[handle.table], events))
      else None
    }

    /** Opens the events controller over an existing store whose views it created itself. */
    constructor (tableName: string, events: seq<EventRedirect>, views: map<string, ViewQuery>)
      requires ViewsWellNamed(tableName, views)
      ensures Valid()
      ensures this.tableName == tableName && this.events == events && this.views == views
    {
      this.tableName := tableName;
      this.events := events;
      this.views := views;
    }

    /**
     * Creates or replaces userId's view and hands back a handle on it. When
     * the creation fails the namespace is unchanged, the error is dropped,
     * and the handle still names the view.
     */
    method GetViewForUser(userId: Uint64, createOk: bool) returns (handle: TableHandle)
      requires Valid()
      modifies this
      ensures Valid()
      ensures handle == TableHandle(ViewName(tableName, userId))
      ensures events == old(events)
      ensures views == if createOk then old(views)[ViewName(tableName, userId) := WhereCreatorId(userId)]
                       else old(views)
    {
      var viewName := ViewName(tableName, userId);
      var viewQuery := WhereCreatorId(userId);
      if createOk {
        views := views[viewName := viewQuery];
      }
      handle := TableHandle(viewName);
    }

    /**
     * Builds the event for a redirect, enriches it, and inserts it. A failed
     * insert is dropped: the store is then unchanged.
     */
    method LogRedirect(data: RedirectData, id: Uuid, ipParses: bool, lookup: LookupResult, insertOk: bool)
      returns (event: EventRedirect)
      requires Valid()
      modifies this
      ensures Valid()
      ensures CopiesRedirect(event, data, id) && LocationFrom(event, ipParses, lookup)
      ensures events == if insertOk then old(events) + [event] else old(events)
      ensures views == old(views)
    {
      event := BuildEvent(data, id, ipParses, lookup);
      if insertOk {
        events := events + [event];
      }
    }

    /**
     * The per-user redirect counts: (re)creates the user's view, then runs
     * the grouped count over it. The answer is the count of the user's own
     * events whenever a view of that name exists, freshly created or not, and
     * the cursor reads to the end; a read error part-way truncates it to the
     * rows read so far without failing. It fails when the store fails or no
     * such view exists.
     */
    method GetRedirectsCountForUserId(userId: Uint64, createOk: bool, storeOk: bool, readError: Option<nat>)
      returns (r: CountResult)
      requires Valid()
      modifies this
      ensures Valid()
      ensures events == old(events)
      ensures views == if createOk then old(views)[ViewName(tableName, userId) := WhereCreatorId(userId)]
                       else old(views)
      ensures r.Counts? <==> storeOk && ViewName(tableName, userId) in views
      ensures !storeOk ==> r == QueryFailed(StoreFailure)
      ensures storeOk && ViewName(tableName, userId) !in views ==>
        r == QueryFailed(NoSuchTable(ViewName(tableName, userId)))
      ensures createOk ==> (r.Counts? <==> storeOk)
      ensures r.Counts? ==> r.rows <= RedirectCountsFor(events, userId)
      ensures r.Counts? && readError.None? ==> r.rows == RedirectCountsFor(events, userId)
      ensures r.Counts? && readError.Some? ==>
        |r.rows| == if readError.value < |RedirectCountsFor(events, userId)| then readError.value
                    else |RedirectCountsFor(events, userId)|
    {
      var view := GetViewForUser(userId, createOk);
      var visible := TableRows(view);
      r := QueryRedirectCounts(view, visible, storeOk, readError);
      if r.Counts? {
        ViewUnderNameFiltersOwner(tableName, views, userId);
      }
    }
  }
}
