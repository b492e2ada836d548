/**
 * What the per-user count query means: the user's events (the view's
 * "creator_id = ?" filter), grouped by short URL, one row per group holding
 * count(id). The store's rows are modelled in the order in which each short
 * URL first appears among the user's events.
 */
module RedirectCounts {
  import opened EventRecords

  /** One result row of the grouped count (EventRedirectCountView). */
  datatype CountRow = CountRow(shortUrl: string, redirects: nat)

  /** The view's filter: the events whose creator is userId, in store order. */
  function CreatedBy(events: seq<EventRedirect>, userId: Uint64): (r: seq<EventRedirect>)
    ensures |r| <= |events|
    decreases |events|
  {
    if events == [] then []
    else (if events[0].creatorId == userId then [events[0]] else []) + CreatedBy(events[1..], userId)
  }

  /** The short_url column of a sequence of events. */
  function ShortUrls(events: seq<EventRedirect>): (r: seq<string>)
    ensures |r| == |events|
    ensures forall i :: 0 <= i < |events| ==> r[i] == events[i].shortUrl
  {
    seq(|events|, i requires 0 <= i < |events| => events[i].shortUrl)
  }

  /** How often u occurs in s. */
  function Occurrences(s: seq<string>, u: string): nat
    decreases |s|
  {
    if s == [] then 0 else (if s[0] == u then 1 else 0) + Occurrences(s[1..], u)
  }

  /** s with every occurrence of u removed. */
  function Without(s: seq<string>, u: string): (r: seq<string>)
    ensures |r| <= |s|
    decreases |s|
  {
    if s == [] then [] else (if s[0] == u then [] else [s[0]]) + Without(s[1..], u)
  }

  /** The grouped count: one row per distinct string, in order of first appearance. */
  function GroupCount(s: seq<string>): seq<CountRow>
    decreases |s|
  {
    if s == [] then []
    else [CountRow(s[0], Occurrences(s, s[0]))] + GroupCount(Without(s[1..], s[0]))
  }

  /** The short URLs of a sequence of rows. */
  function RowUrls(rows: seq<CountRow>): (r: seq<string>)
    ensures |r| == |rows|
    ensures forall i :: 0 <= i < |rows| ==> r[i] == rows[i].shortUrl
  {
    seq(|rows|, i requires 0 <= i < |rows| => rows[i].shortUrl)
  }

  /** The total of the counts of a sequence of rows. */
  function SumRedirects(rows: seq<CountRow>): nat
    decreases |rows|
  {
    if rows == [] then 0 else rows[0].redirects + SumRedirects(rows[1..])
  }

  /** The answer the count query gives for one user over the whole event store. */
  function RedirectCountsFor(events: seq<EventRedirect>, userId: Uint64): seq<CountRow> {
    GroupCount(ShortUrls(CreatedBy(events, userId)))
  }

  /** A reference definition of one row's count: the events of userId whose short URL is shortUrl. */
  function EventsMatching(events: seq<EventRedirect>, userId: Uint64, shortUrl: string): nat
    decreases |events|
  {
    if events == [] then 0
    else (if events[0].creatorId == userId && events[0].shortUrl == shortUrl then 1 else 0)
         + EventsMatching(events[1..], userId, shortUrl)
  }

  /** A reference definition of how many events belong to userId. */
  function EventsOf(events: seq<EventRedirect>, userId: Uint64): nat
    decreases |events|
  {
    if events == [] then 0
    else (if events[0].creatorId == userId then 1 else 0) + EventsOf(events[1..], userId)
  }

  // ---- Lemmas about the filter

  /** The filter keeps exactly the events of userId: no other user's event gets through. */
  lemma {:induction false} CreatedByExactly(events: seq<EventRedirect>, userId: Uint64)
    ensures forall e :: e in CreatedBy(events, userId) <==> e in events && e.creatorId == userId
    ensures |CreatedBy(events, userId)| == EventsOf(events, userId)
    decreases |events|
  {
    if events != [] {
      CreatedByExactly(events[1..], userId);
      assert events == [events[0]] + events[1..];
    }
  }

  // ---- Lemmas about Occurrences and Without

  lemma {:induction false} OccurrencesPositive(s: seq<string>, u: string)
    ensures Occurrences(s, u) > 0 <==> u in s
    decreases |s|
  {
    if s != [] {
      OccurrencesPositive(s[1..], u);
      assert s == [s[0]] + s[1..];
    }
  }

  lemma {:induction false} OccurrencesWithout(s: seq<string>, u: string, v: string)
    ensures Occurrences(Without(s, u), v) == if v == u then 0 else Occurrences(s, v)
    decreases |s|
  {
    if s != [] {
      OccurrencesWithout(s[1..], u, v);
      var w := Without(s, u);
      if s[0] != u {
        assert w == [s[0]] + Without(s[1..], u);
        assert w[0] == s[0] && w[1..] == Without(s[1..], u);
        assert Occurrences(w, v) == (if s[0] == v then 1 else 0) + Occurrences(Without(s[1..], u), v);
      } else {
        assert w == Without(s[1..], u);
      }
    }
  }

  lemma {:induction false} LengthWithout(s: seq<string>, u: string)
    ensures |Without(s, u)| + Occurrences(s, u) == |s|
    decreases |s|
  {
    if s != [] {
      LengthWithout(s[1..], u);
    }
  }

  lemma {:induction false} MembersWithout(s: seq<string>, u: string)
    ensures forall v :: v in Without(s, u) <==> v in s && v != u
    decreases |s|
  {
    if s != [] {
      MembersWithout(s[1..], u);
      assert s == [s[0]] + s[1..];
    }
  }

  // ---- Lemmas about the grouped count

  /** Every row's count is the number of occurrences of its short URL, hence at least one. */
  lemma {:induction false} GroupCountCounts(s: seq<string>)
    ensures forall i :: 0 <= i < |GroupCount(s)| ==>
      GroupCount(s)[i].redirects == Occurrences(s, GroupCount(s)[i].shortUrl) >= 1
    decreases |s|
  {
    if s != [] {
      var rest := Without(s[1..], s[0]);
      GroupCountCounts(rest);
      GroupCountUrls(rest);
      OccurrencesPositive(s, s[0]);
      var g := GroupCount(s);
      forall i | 0 <= i < |g|
        ensures g[i].redirects == Occurrences(s, g[i].shortUrl) >= 1
      {
        if i > 0 {
          var row := GroupCount(rest)[i - 1];
          assert g[i] == row;
          assert row.shortUrl in RowUrls(GroupCount(rest));
          MembersWithout(s[1..], s[0]);
          OccurrencesWithout(s[1..], s[0], row.shortUrl);
        }
      }
    }
  }

  /** The rows carry exactly the short URLs that occur. */
  lemma {:induction false} GroupCountUrls(s: seq<string>)
    ensures forall u :: u in RowUrls(GroupCount(s)) <==> u in s
    decreases |s|
  {
    if s != [] {
      var rest := Without(s[1..], s[0]);
      GroupCountUrls(rest);
      MembersWithout(s[1..], s[0]);
      var g := GroupCount(s);
      assert RowUrls(g) == [s[0]] + RowUrls(GroupCount(rest));
      assert s == [s[0]] + s[1..];
    }
  }

  /** No short URL has two rows. */
  lemma {:induction false} GroupCountDistinct(s: seq<string>)
    ensures forall i, j :: 0 <= i < j < |GroupCount(s)| ==> GroupCount(s)[i].shortUrl != GroupCount(s)[j].shortUrl
    decreases |s|
  {
    if s != [] {
      var rest := Without(s[1..], s[0]);
      GroupCountDistinct(rest);
      GroupCountUrls(rest);
      MembersWithout(s[1..], s[0]);
      var g := GroupCount(s);
      forall i, j | 0 <= i < j < |g| ensures g[i].shortUrl != g[j].shortUrl {
        assert g[j] == GroupCount(rest)[j - 1];
        assert g[j].shortUrl in RowUrls(GroupCount(rest));
        if i > 0 {
          assert g[i] == GroupCount(rest)[i - 1];
        }
      }
    }
  }

  /** The counts add up to the number of events counted. */
  lemma {:induction false} GroupCountSum(s: seq<string>)
    ensures SumRedirects(GroupCount(s)) == |s|
    decreases |s|
  {
    if s != [] {
      var rest := Without(s[1..], s[0]);
      GroupCountSum(rest);
      LengthWithout(s[1..], s[0]);
      var g := GroupCount(s);
      assert g[1..] == GroupCount(rest);
    }
  }

  /** Counting the short URLs of the user's events is counting the matching events. */
  lemma {:induction false} OccurrencesOfCreatedBy(events: seq<EventRedirect>, userId: Uint64, u: string)
    ensures Occurrences(ShortUrls(CreatedBy(events, userId)), u) == EventsMatching(events, userId, u)
    decreases |events|
  {
    if events != [] {
      OccurrencesOfCreatedBy(events[1..], userId, u);
      var tail := CreatedBy(events[1..], userId);
      if events[0].creatorId == userId {
        var f := CreatedBy(events, userId);
        assert f == [events[0]] + tail;
        assert ShortUrls(f)[1..] == ShortUrls(tail);
        assert ShortUrls(f)[0] == events[0].shortUrl;
      } else {
        assert CreatedBy(events, userId) == tail;
      }
    }
  }

  /**
   * The count query for a user: one row per distinct short URL among that
   * user's events and no other; each count is the number of that user's
   * events with that short URL, so at least one and blind to other users'
   * events; and the counts add up to the number of the user's events.
   */
  lemma RedirectCountsCorrect(events: seq<EventRedirect>, userId: Uint64)
    ensures forall u :: u in RowUrls(RedirectCountsFor(events, userId)) <==>
      exists e :: e in events && e.creatorId == userId && e.shortUrl == u
    ensures forall i, j :: 0 <= i < j < |RedirectCountsFor(events, userId)| ==>
      RedirectCountsFor(events, userId)[i].shortUrl != RedirectCountsFor(events, userId)[j].shortUrl
    ensures forall i :: 0 <= i < |RedirectCountsFor(events, userId)| ==>
      var row := RedirectCountsFor(events, userId)[i];
      row.redirects == EventsMatching(events, userId, row.shortUrl) && row.redirects >= 1
    ensures SumRedirects(RedirectCountsFor(events, userId)) == EventsOf(events, userId)
  {
    var mine := CreatedBy(events, userId);
    var urls := ShortUrls(mine);
    CreatedByExactly(events, userId);
    GroupCountUrls(urls);
    GroupCountDistinct(urls);
    GroupCountCounts(urls);
    GroupCountSum(urls);
    forall u ensures u in RowUrls(GroupCount(urls)) <==> exists e :: e in events && e.creatorId == userId && e.shortUrl == u {
      if u in urls {
        var i :| 0 <= i < |urls| && urls[i] == u;
        assert mine[i] in mine;
      }
      if exists e :: e in events && e.creatorId == userId && e.shortUrl == u {
        var e :| e in events && e.creatorId == userId && e.shortUrl == u;
        assert e in mine;
        var i :| 0 <= i < |mine| && mine[i] == e;
        assert urls[i] == u;
      }
    }
    forall i | 0 <= i < |GroupCount(urls)|
      ensures GroupCount(urls)[i].redirects == EventsMatching(events, userId, GroupCount(urls)[i].shortUrl)
    {
      OccurrencesOfCreatedBy(events, userId, GroupCount(urls)[i].shortUrl);
    }
  }

  /** An event of the example below: only its creator and short URL matter. */
  function SampleEvent(id: Uuid, creatorId: Uint64, shortUrl: string): EventRedirect {
    EventRedirect(id, shortUrl, 0, 0, creatorId, "", "", "", "", "", "")
  }

  /**
   * Example: user 1 has events on "A", "A", "B" and user 2 one on "A";
   * user 1's counts are A:2 and B:1, and user 2's event is not among them.
   * The statement does not depend on the order of the rows.
   */
  lemma CountsExample(id: Uuid)
    ensures var rows := RedirectCountsFor([SampleEvent(id, 1, "A"), SampleEvent(id, 2, "A"),
                                           SampleEvent(id, 1, "B"), SampleEvent(id, 1, "A")], 1);
            |rows| == 2 && CountRow("A", 2) in rows && CountRow("B", 1) in rows
  {
    var a1, a2, b1 := SampleEvent(id, 1, "A"), SampleEvent(id, 2, "A"), SampleEvent(id, 1, "B");
    var events := [a1, a2, b1, a1];
    assert CreatedBy(events[3..], 1) == [a1];
    assert CreatedBy(events[2..], 1) == [b1, a1];
    assert CreatedBy(events[1..], 1) == [b1, a1];
    assert CreatedBy(events, 1) == [a1, b1, a1];
    var urls := ShortUrls(CreatedBy(events, 1));
    assert urls == ["A", "B", "A"];
    assert urls[1..][1..][1..] == [];
    assert Occurrences(urls[1..][1..], "A") == 1;
    assert Occurrences(urls, "A") == 2;
    assert Without(urls[1..][1..], "A") == [];
    assert Without(urls[1..], "A") == ["B"];
    assert Occurrences(["B"], "B") == 1;
    assert Without(["B"][1..], "B") == [];
    assert GroupCount(["B"]) == [CountRow("B", 1)];
    assert RedirectCountsFor(events, 1) == [CountRow("A", 2), CountRow("B", 1)];
  }

  /** The counts of a prefix of the rows add up to no more than those of all the rows. */
  lemma {:induction false} SumOfPrefix(rows: seq<CountRow>, all: seq<CountRow>)
    requires rows <= all
    ensures SumRedirects(rows) <= SumRedirects(all)
    decreases |rows|
  {
    if rows == [] {
      assert SumRedirects(rows) == 0;
    } else {
      assert rows[1..] <= all[1..];
      SumOfPrefix(rows[1..], all[1..]);
    }
  }

  /**
   * A truncated answer (a prefix of the per-user counts) is still sound: its
   * rows have distinct short URLs, each count is the number of the user's
   * events with that URL, and together they count no more than the user's events.
   */
  lemma TruncatedCountsSound(events: seq<EventRedirect>, userId: Uint64, rows: seq<CountRow>)
    requires rows <= RedirectCountsFor(events, userId)
    ensures forall i, j :: 0 <= i < j < |rows| ==> rows[i].shortUrl != rows[j].shortUrl
    ensures forall i :: 0 <= i < |rows| ==>
      rows[i].redirects == EventsMatching(events, userId, rows[i].shortUrl) && rows[i].redirects >= 1
    ensures SumRedirects(rows) <= EventsOf(events, userId)
  {
    var all := RedirectCountsFor(events, userId);
    RedirectCountsCorrect(events, userId);
    assert forall i :: 0 <= i < |rows| ==> rows[i] == all[i];
    SumOfPrefix(rows, all);
  }
}
