/** Cursor pagination of the audit log: walking to older pages, and polling for newer events. */
module LogPages {
  import opened Common
  import opened Versions

  datatype Event = Event(stamp: int, id: string)

  /** The order of the composite key (created_at, id). */
  function CompareEvents(a: Event, b: Event): int {
    if a.stamp != b.stamp then Sign(a.stamp - b.stamp) else CompareText(a.id, b.id)
  }

  lemma EventsOrder()
    ensures Orders(CompareEvents)
  {
    TextOrders();
    forall a, b
      ensures CompareEvents(a, b) == -CompareEvents(b, a)
    {
      assert CompareText(a.id, b.id) == -CompareText(b.id, a.id);
    }
    forall a, b, c | CompareEvents(a, b) < 0 && CompareEvents(b, c) < 0
      ensures CompareEvents(a, c) < 0
    {
      if a.stamp == b.stamp == c.stamp {
        assert CompareText(a.id, b.id) < 0 && CompareText(b.id, c.id) < 0;
      }
    }
  }

  /** The log in key order, oldest first; keys are distinct. */
  ghost predicate Ascending(log: seq<Event>) {
    forall i, j :: 0 <= i < j < |log| ==> CompareEvents(log[i], log[j]) < 0
  }

  function Older(log: seq<Event>, c: Event): seq<Event> {
    if log == [] then []
    else (if CompareEvents(log[0], c) < 0 then [log[0]] else []) + Older(log[1..], c)
  }

  function Newer(log: seq<Event>, c: Event): seq<Event> {
    if log == [] then []
    else (if CompareEvents(log[0], c) > 0 then [log[0]] else []) + Newer(log[1..], c)
  }

  function Reverse(s: seq<Event>): seq<Event> {
    if s == [] then [] else Reverse(s[1..]) + [s[0]]
  }

  function Take(s: seq<Event>, n: nat): seq<Event> {
    if |s| <= n then s else s[..n]
  }

  /** `older` and `live` are the cursors of the last and of the first entry. */
  datatype Page = Page(entries: seq<Event>, more: bool, older: Option<Event>, live: Option<Event>)

  /** A cursor is accepted back only if its identifier has the 32 characters of a generated one. */
  function Position(c: Event): Option<Event> {
    if |c.id| == 32 then Some(c) else None
  }

  /** The answer for the selected events, given oldest first. */
  function PageOf(selected: seq<Event>, limit: nat, forward: bool, before: Option<Event>, after: Option<Event>): Page {
    var fetched := Take(if forward then selected else Reverse(selected), limit + 1);
    var first := Take(fetched, limit);
    var entries := if forward then Reverse(first) else first;
    Page(entries, |fetched| > limit,
         if entries == [] then before else Some(entries[|entries| - 1]),
         if entries == [] then after else Some(entries[0]))
  }

  /** The page query; None stands for the error answer. */
  function Read(log: seq<Event>, limit: nat, before: Option<Event>, after: Option<Event>): Option<Page> {
    if before.Some? && after.Some? then None
    else if before.Some? && Position(before.value).None? then None
    else if after.Some? && Position(after.value).None? then None
    else
      var selected := if before.Some? then Older(log, before.value) else if after.Some? then Newer(log, after.value)
                                                                         else log;
      Some(PageOf(selected, limit, after.Some?, before, after))
  }

  /** A request with both cursors is refused, and so is one with a cursor that is not acceptable. */
  lemma RefusedReads(log: seq<Event>, limit: nat, before: Option<Event>, after: Option<Event>)
    ensures Read(log, limit, before, after) == None <==>
      (before.Some? && after.Some?) || (before.Some? && |before.value.id| != 32)
        || (after.Some? && |after.value.id| != 32)
  {
  }

  /** The query, built step by step: filter, order, one row more than asked for, cut, and turned round for a poll. */
  method ReadPage(log: seq<Event>, limit: nat, before: Option<Event>, after: Option<Event>) returns (page: Option<Page>)
    ensures page == Read(log, limit, before, after)
    ensures Ascending(log) && 1 <= limit && after.None? ==>
      (forall k ::
        0 <= k <= |log| && before == Below(log, k) && (k < |log| ==> |log[k].id| == 32) ==>
          PageFits(page, log, limit, k))
    ensures Ascending(log) && 1 <= limit && before.None? ==>
      (forall k :: 0 <= k < |log| && after == Some(log[k]) && |log[k].id| == 32 ==> PollFits(page, log, limit, k + 1))
  {
    if Ascending(log) && 1 <= limit {
      ServerPages(log, limit);
      ServerPolls(log, limit);
    }
    if before.Some? && after.Some? {
      return None;
    }
    var selected := log;
    if before.Some? {
      if Position(before.value).None? {
        return None;
      }
      selected := Older(selected, before.value);
    }
    if after.Some? {
      if Position(after.value).None? {
        return None;
      }
      selected := Newer(selected, after.value);
    }
    var events := Take(if after.Some? then selected else Reverse(selected), limit + 1);
    var more := |events| > limit;
    events := Take(events, limit);
    if after.Some? {
      events := Reverse(events);
    }
    if events == [] {
      return Some(Page(events, more, before, after));
    }
    return Some(Page(events, more, Some(events[|events| - 1]), Some(events[0])));
  }

  // ---------------------------------------------------------------- cursors as text

  /** An element of the list inside a cursor. */
  datatype Part = Word(text: string) | OtherPart

  /** JSON in base64, and ISO time stamps. */
  datatype Coding = Coding(pack: seq<Part> -> string, unpack: string -> Option<seq<Part>>,
                           iso: int -> string, fromIso: string -> Option<int>)

  ghost predicate Faithful(k: Coding) {
    && (forall parts :: k.unpack(k.pack(parts)) == Some(parts))
    && (forall t :: k.fromIso(k.iso(t)) == Some(t))
  }

  function CursorText(k: Coding, e: Event): string {
    k.pack([Word(k.iso(e.stamp)), Word(e.id)])
  }

  /** Reads a cursor back; None is the error answer. */
  function ReadCursor(k: Coding, value: string): Option<Event> {
    match k.unpack(value)
    case None => None
    case Some(parts) =>
      if |parts| != 2 || !parts[1].Word? || |parts[1].text| != 32 || !parts[0].Word? then None
      else match k.fromIso(parts[0].text)
        case None => None
        case Some(stamp) => Some(Event(stamp, parts[1].text))
  }

  /** Reading inverts writing for events with generated identifiers, and refuses the cursors of all others. */
  lemma CursorRoundTrip(k: Coding, e: Event)
    requires Faithful(k)
    ensures ReadCursor(k, CursorText(k, e)) == Position(e)
  {
    var parts := [Word(k.iso(e.stamp)), Word(e.id)];
    assert k.unpack(k.pack(parts)) == Some(parts);
  }

  // ---------------------------------------------------------------- facts about the query

  lemma {:induction false} ReverseAt(s: seq<Event>)
    ensures |Reverse(s)| == |s|
    ensures forall i :: 0 <= i < |s| ==> Reverse(s)[i] == s[|s| - 1 - i]
  {
    if s != [] {
      ReverseAt(s[1..]);
    }
  }

  lemma ReverseTwice(s: seq<Event>)
    ensures Reverse(Reverse(s)) == s
  {
    ReverseAt(s);
    ReverseAt(Reverse(s));
  }

  lemma {:induction false} OlderAll(log: seq<Event>, c: Event)
    requires forall e :: e in log ==> CompareEvents(e, c) < 0
    ensures Older(log, c) == log && Newer(log, c) == []
  {
    if log != [] {
      assert log[0] in log && forall e :: e in log[1..] ==> e in log;
      OlderAll(log[1..], c);
    }
  }

  lemma {:induction false} NewerAll(log: seq<Event>, c: Event)
    requires forall e :: e in log ==> CompareEvents(e, c) >= 0
    ensures Older(log, c) == []
    ensures (forall e :: e in log ==> CompareEvents(e, c) > 0) ==> Newer(log, c) == log
  {
    if log != [] {
      assert log[0] in log && forall e :: e in log[1..] ==> e in log;
      NewerAll(log[1..], c);
    }
  }

  lemma {:induction false} SplitAt(a: seq<Event>, b: seq<Event>, c: Event)
    ensures Older(a + b, c) == Older(a, c) + Older(b, c) && Newer(a + b, c) == Newer(a, c) + Newer(b, c)
  {
    if a == [] {
      assert a + b == b;
    } else {
      assert (a + b)[1..] == a[1..] + b;
      SplitAt(a[1..], b, c);
    }
  }

  lemma Flip(a: Event, b: Event)
    ensures CompareEvents(a, b) == -CompareEvents(b, a) && CompareEvents(a, a) == 0
  {
    EventsOrder();
  }

  lemma CutParts(head: seq<Event>, c: Event, rest: seq<Event>)
    requires forall e :: e in head ==> CompareEvents(e, c) < 0
    requires forall e :: e in rest ==> CompareEvents(e, c) > 0
    ensures Older(head + [c] + rest, c) == head && Newer(head + [c] + rest, c) == rest
  {
    SplitAt(head + [c], rest, c);
    SplitAt(head, [c], c);
    OlderAll(head, c);
    NewerAll(rest, c);
    Flip(c, c);
    assert [c][1..] == [] && Older([c], c) == [] && Newer([c], c) == [];
    assert head + [] + [] == head && [] + [] + rest == rest;
  }

  lemma AfterIsLater(log: seq<Event>, k: nat)
    requires Ascending(log) && k < |log|
    ensures forall e :: e in log[k + 1..] ==> CompareEvents(e, log[k]) > 0
  {
    forall e | e in log[k + 1..]
      ensures CompareEvents(e, log[k]) > 0
    {
      var i :| k < i < |log| && log[i] == e;
      assert CompareEvents(log[k], log[i]) < 0;
      Flip(log[k], e);
    }
  }

  lemma BeforeIsEarlier(log: seq<Event>, k: nat)
    requires Ascending(log) && k < |log|
    ensures forall e :: e in log[..k] ==> CompareEvents(e, log[k]) < 0
  {
  }

  /** A cursor of the log cuts it in two, whatever ties there are in the timestamps. */
  lemma CursorCuts(log: seq<Event>, k: nat)
    requires Ascending(log) && k < |log|
    ensures Older(log, log[k]) == log[..k] && Newer(log, log[k]) == log[k + 1..]
  {
    AfterIsLater(log, k);
    BeforeIsEarlier(log, k);
    CutParts(log[..k], log[k], log[k + 1..]);
    AroundOne(log, k);
  }

  lemma AroundOne(log: seq<Event>, k: nat)
    requires k < |log|
    ensures log == log[..k] + [log[k]] + log[k + 1..]
  {
  }

  // ---------------------------------------------------------------- walking to older pages

  /** A client that asks for pages: it sends a cursor, or none, and gets a page or an error. */
  type Reader = Option<Event> -> Option<Page>

  /** Page after page by the older cursor, while there is more, each from the log as it is then; None if a request is
      refused. */
  function Walk(readers: seq<Reader>, before: Option<Event>): Option<seq<Event>>
    decreases |readers|
  {
    if readers == [] then None
    else match readers[0](before)
      case None => None
      case Some(page) =>
        if !page.more then Some(page.entries)
        else match Walk(readers[1..], page.older)
          case None => None
          case Some(rest) => Some(page.entries + rest)
  }

  function Server(log: seq<Event>, limit: nat): Reader {
    before => Read(log, limit, before, None)
  }

  /** Where a page that ends below position k begins. */
  function Low(limit: nat, k: nat): nat {
    if limit <= k then k - limit else 0
  }

  lemma NewestOf(s: seq<Event>, limit: nat)
    requires 1 <= limit
    ensures Take(Take(Reverse(s), limit + 1), limit) == Reverse(s[Low(limit, |s|)..])
    ensures |Take(Reverse(s), limit + 1)| > limit <==> limit < |s|
  {
    ReverseAt(s);
    ReverseAt(s[Low(limit, |s|)..]);
  }

  function Below(log: seq<Event>, k: nat): Option<Event>
    requires k <= |log|
  {
    if k == |log| then None else Some(log[k])
  }

  /** The page that ends below position k: the newest `limit` events of log[..k], and a cursor at its oldest one. */
  lemma PageBelow(log: seq<Event>, limit: nat, k: nat)
    requires Ascending(log) && 1 <= limit && k <= |log|
    ensures k < |log| && |log[k].id| != 32 ==> Read(log, limit, Below(log, k), None).None?
    ensures (k < |log| ==> |log[k].id| == 32) ==> var page := Read(log, limit, Below(log, k), None);
      && page.Some?
      && page.value.entries == Reverse(log[Low(limit, k)..k])
      && (page.value.more <==> limit < k)
      && (0 < k ==> page.value.older == Some(log[Low(limit, k)]) && page.value.live == Some(log[k - 1]))
      && (k == 0 ==> page.value.live == None)
  {
    if k < |log| ==> |log[k].id| == 32 {
      ReadBelow(log, limit, k);
      NewestPage(log[..k], limit, Below(log, k));
      SliceFacts(log, k, Low(limit, k));
    }
  }

  lemma SliceFacts(log: seq<Event>, k: nat, low: nat)
    requires low <= k <= |log|
    ensures log[..k][low..] == log[low..k]
    ensures low < k ==> log[..k][low] == log[low] && log[..k][k - 1] == log[k - 1]
  {
  }

  lemma ReadBelow(log: seq<Event>, limit: nat, k: nat)
    requires Ascending(log) && k <= |log| && (k < |log| ==> |log[k].id| == 32)
    ensures Read(log, limit, Below(log, k), None) == Some(PageOf(log[..k], limit, false, Below(log, k), None))
  {
    if k < |log| {
      CursorCuts(log, k);
    } else {
      assert log[..k] == log;
    }
  }

  lemma NewestPage(selected: seq<Event>, limit: nat, before: Option<Event>)
    requires 1 <= limit
    ensures var page := PageOf(selected, limit, false, before, None); var n := |selected|;
      && page.entries == Reverse(selected[Low(limit, n)..])
      && (page.more <==> limit < n)
      && (0 < n ==> page.older == Some(selected[Low(limit, n)]) && page.live == Some(selected[n - 1]))
      && (n == 0 ==> page.live == None)
  {
    NewestOf(selected, limit);
    ReverseAt(selected[Low(limit, |selected|)..]);
  }

  /** The identifiers of all cursors a walk from position k sends. */
  ghost predicate CursorsOk(log: seq<Event>, limit: nat, k: nat)
    requires 1 <= limit && k <= |log|
    decreases k
  {
    limit < k ==> |log[k - limit].id| == 32 && CursorsOk(log, limit, k - limit)
  }

  /** What the walk needs to know of a reader: below every event it gives the right page, or refuses the cursor. */
  ghost predicate ReadsPages(read: Reader, log: seq<Event>, limit: nat) {
    forall k :: 0 <= k < |log| ==>
      if |log[k].id| == 32 then PageFits(read(Below(log, k)), log, limit, k) else read(Below(log, k)).None?
  }

  ghost predicate PageFits(page: Option<Page>, log: seq<Event>, limit: nat, k: nat)
    requires k <= |log|
  {
    && page.Some?
    && page.value.entries == Reverse(log[Low(limit, k)..k])
    && (page.value.more <==> limit < k)
    && (0 < k ==> page.value.older == Below(log, Low(limit, k)))
  }

  lemma {:induction false} WalkMeaning(readers: seq<Reader>, log: seq<Event>, limit: nat, k: nat)
    requires 1 <= limit && k <= |log| && k <= |readers| && readers != []
    requires (forall i :: 0 <= i < |readers| ==> ReadsPages(readers[i], log, limit))
      && PageFits(readers[0](Below(log, k)), log, limit, k)
    ensures Walk(readers, Below(log, k)) == if CursorsOk(log, limit, k) then Some(Reverse(log[..k])) else None
    decreases k
  {
    var low := Low(limit, k);
    if limit < k {
      assert ReadsPages(readers[1..][0], log, limit);
      if |log[low].id| == 32 {
        WalkMeaning(readers[1..], log, limit, low);
        JoinReversed(log, low, k);
      } else {
        assert readers[1..][0](Below(log, low)).None?;
      }
    } else {
      assert log[..k] == log[low..k];
    }
  }

  lemma ServerPages(log: seq<Event>, limit: nat)
    requires Ascending(log) && 1 <= limit
    ensures forall k :: 0 <= k <= |log| && (k < |log| ==> |log[k].id| == 32) ==>
      PageFits(Read(log, limit, Below(log, k), None), log, limit, k)
  {
    forall k | 0 <= k <= |log| && (k < |log| ==> |log[k].id| == 32)
      ensures PageFits(Read(log, limit, Below(log, k), None), log, limit, k)
    {
      PageBelow(log, limit, k);
    }
  }

  /** Events that are added later do not show in the page below an earlier one. */
  lemma GrownPage(log: seq<Event>, more: seq<Event>, limit: nat, k: nat)
    requires Ascending(more) && log <= more && 1 <= limit && k < |log|
    ensures var page := Server(more, limit)(Below(log, k));
            if |log[k].id| == 32 then PageFits(page, log, limit, k) else page.None?
  {
    PageBelow(more, limit, k);
    assert more[Low(limit, k)..k] == log[Low(limit, k)..k];
  }

  lemma GrownPages(log: seq<Event>, more: seq<Event>, limit: nat)
    requires Ascending(more) && log <= more && 1 <= limit
    ensures ReadsPages(Server(more, limit), log, limit)
  {
    forall k | 0 <= k < |log|
      ensures if |log[k].id| == 32 then PageFits(Server(more, limit)(Below(log, k)), log, limit, k)
              else Server(more, limit)(Below(log, k)).None?
    {
      GrownPage(log, more, limit, k);
    }
  }

  function Servers(logs: seq<seq<Event>>, limit: nat): (readers: seq<Reader>)
    ensures |readers| == |logs|
  {
    seq(|logs|, i requires 0 <= i < |logs| => Server(logs[i], limit))
  }

  /**
    Walking older pages from any point visits every event that is older exactly once, newest first, and ends, whatever
    is added to the log between the pages; this happens exactly when every cursor on the way carries an identifier of 32
    characters. `logs` are the logs that the pages are read from.
   */
  lemma WalkVisitsAll(log: seq<Event>, logs: seq<seq<Event>>, limit: nat, k: nat)
    requires 1 <= limit && k <= |log| && k <= |logs| && logs != []
    requires forall i :: 0 <= i < |logs| ==> Ascending(logs[i]) && log <= logs[i]
    requires if k < |log| then |log[k].id| == 32 else logs[0] == log
    ensures Walk(Servers(logs, limit), Below(log, k)) == if CursorsOk(log, limit, k) then Some(Reverse(log[..k]))
                                                         else None
  {
    var readers := Servers(logs, limit);
    forall i | 0 <= i < |readers|
      ensures ReadsPages(readers[i], log, limit)
    {
      GrownPages(log, logs[i], limit);
    }
    if k == |log| {
      PageBelow(log, limit, k);
    }
    WalkMeaning(readers, log, limit, k);
  }

  /** Two events, pages of one: the second page is refused, because the cursor of the first has a short identifier. */
  lemma RefusedWalk(log: seq<Event>)
    requires log == [Event(1, "a"), Event(2, "b")]
    ensures Walk(Servers([log, log], 1), None) == None
  {
    WalkVisitsAll(log, [log, log], 1, 2);
    assert |log[1].id| == 1;
  }

  lemma JoinReversed(log: seq<Event>, low: nat, k: nat)
    requires low <= k <= |log|
    ensures Reverse(log[low..k]) + Reverse(log[..low]) == Reverse(log[..k])
  {
    ReverseConcat(log[..low], log[low..k]);
    assert log[..low] + log[low..k] == log[..k];
  }

  lemma {:induction false} ReverseConcat(a: seq<Event>, b: seq<Event>)
    ensures Reverse(a + b) == Reverse(b) + Reverse(a)
  {
    if a == [] {
      assert a + b == b && Reverse(b) + [] == Reverse(b);
    } else {
      assert (a + b)[1..] == a[1..] + b;
      ReverseConcat(a[1..], b);
    }
  }

  // ---------------------------------------------------------------- polling for newer events

  function Upto(limit: nat, p: nat, length: nat): nat {
    if p + limit <= length then p + limit else if p <= length then length else p
  }

  lemma ReadBehind(log: seq<Event>, limit: nat, p: nat)
    requires Ascending(log) && 1 <= p <= |log| && |log[p - 1].id| == 32
    ensures Read(log, limit, None, Some(log[p - 1])) == Some(PageOf(log[p..], limit, true, None, Some(log[p - 1])))
  {
    CursorCuts(log, p - 1);
  }

  lemma NextPage(selected: seq<Event>, limit: nat, after: Option<Event>)
    requires 1 <= limit
    ensures var page := PageOf(selected, limit, true, None, after); var first := Take(selected, limit);
      && Reverse(page.entries) == first
      && page.live == (if first == [] then after else Some(first[|first| - 1]))
      && (page.more <==> limit < |selected|)
  {
    var first := Take(selected, limit);
    assert Take(Take(selected, limit + 1), limit) == first;
    ReverseTwice(first);
    ReverseAt(first);
  }

  lemma TakeBehind(log: seq<Event>, limit: nat, p: nat)
    requires 1 <= limit && 1 <= p <= |log|
    ensures Take(log[p..], limit) == log[p..Upto(limit, p, |log|)]
    ensures Upto(limit, p, |log|) > p ==>
      log[p..Upto(limit, p, |log|)][Upto(limit, p, |log|) - p - 1] == log[Upto(limit, p, |log|) - 1]
  {
  }

  /** One poll behind position p: the next `limit` events, newest first, and a cursor behind the last of them. */
  lemma PollBehind(log: seq<Event>, limit: nat, p: nat)
    requires Ascending(log) && 1 <= limit && 1 <= p <= |log| && |log[p - 1].id| == 32
    ensures var next := Upto(limit, p, |log|); var page := Read(log, limit, None, Some(log[p - 1]));
      && page.Some?
      && Reverse(page.value.entries) == log[p..next]
      && page.value.live == Some(log[next - 1])
      && (page.value.more <==> next < |log|)
  {
    ReadBehind(log, limit, p);
    NextPage(log[p..], limit, Some(log[p - 1]));
    TakeBehind(log, limit, p);
  }

  /** A client that polls: it sends its cursor and gets a page or an error. */
  type Poll = Event -> Option<Page>

  function Polled(log: seq<Event>, limit: nat): Poll {
    live => Read(log, limit, None, Some(live))
  }

  /** The events a client collects over a series of polls, oldest first. */
  ghost function Collect(polls: seq<Poll>, live: Event): Option<seq<Event>>
    decreases |polls|
  {
    if polls == [] then Some([])
    else match polls[0](live)
      case None => None
      case Some(page) =>
        if page.live.None? then None
        else match Collect(polls[1..], page.live.value)
          case None => None
          case Some(rest) => Some(Reverse(page.entries) + rest)
  }

  ghost predicate PollFits(page: Option<Page>, log: seq<Event>, limit: nat, p: nat)
    requires 1 <= limit && 1 <= p <= |log|
  {
    && page.Some?
    && Reverse(page.value.entries) == log[p..Upto(limit, p, |log|)]
    && page.value.live == Some(log[Upto(limit, p, |log|) - 1])
  }

  /** What a series of polls needs to know: behind every position there is the right page, or the cursor is refused. */
  ghost predicate PollsPages(poll: Poll, log: seq<Event>, limit: nat)
    requires 1 <= limit
  {
    forall k ::
      0 <= k < |log| ==> if |log[k].id| == 32 then PollFits(poll(log[k]), log, limit, k + 1) else poll(log[k]).None?
  }

  /** Later events are appended; nothing else happens to the log. */
  ghost predicate Grows(logs: seq<seq<Event>>) {
    forall i :: 0 <= i < |logs| - 1 ==> logs[i] <= logs[i + 1]
  }

  function Advance(logs: seq<seq<Event>>, limit: nat, p: nat): nat {
    if logs == [] then p else Advance(logs[1..], limit, Upto(limit, p, |logs[0]|))
  }

  /** One poll as part of a series. */
  lemma CollectStep(polls: seq<Poll>, log: seq<Event>, limit: nat, p: nat)
    requires polls != [] && 1 <= limit && PollsPages(polls[0], log, limit) && 1 <= p <= |log| && |log[p - 1].id| == 32
    ensures var next := Upto(limit, p, |log|);
      Collect(polls, log[p - 1])
      == match Collect(polls[1..], log[next - 1])
         case None => None
         case Some(rest) => Some(log[p..next] + rest)
  {
    assert PollFits(polls[0](log[p - 1]), log, limit, p);
  }

  ghost predicate Series(polls: seq<Poll>, logs: seq<seq<Event>>, limit: nat, final: seq<Event>)
    requires 1 <= limit
  {
    && |polls| == |logs| && Grows(logs)
    && forall i :: 0 <= i < |logs| ==> logs[i] <= final && PollsPages(polls[i], logs[i], limit)
  }

  lemma SeriesTail(polls: seq<Poll>, logs: seq<seq<Event>>, limit: nat, final: seq<Event>)
    requires 1 <= limit && Series(polls, logs, limit, final) && logs != []
    ensures Series(polls[1..], logs[1..], limit, final)
    ensures |logs| > 1 ==> logs[0] <= logs[1..][0]
  {
    GrowsTail(logs);
    forall i | 0 <= i < |logs| - 1
      ensures logs[1..][i] <= final && PollsPages(polls[1..][i], logs[1..][i], limit)
    {
      assert logs[1..][i] == logs[i + 1] && polls[1..][i] == polls[i + 1];
    }
  }

  /** The identifiers of all cursors the polls send. */
  ghost predicate LiveOk(logs: seq<seq<Event>>, limit: nat, p: nat)
    decreases |logs|
  {
    logs != [] ==>
      1 <= p <= |logs[0]| && |logs[0][p - 1].id| == 32 && LiveOk(logs[1..], limit, Upto(limit, p, |logs[0]|))
  }

  lemma {:induction false} CollectMeaning(polls: seq<Poll>, logs: seq<seq<Event>>, limit: nat, p: nat,
                                          final: seq<Event>)
    requires 1 <= limit && Series(polls, logs, limit, final) && logs != [] && 1 <= p <= |logs[0]|
    ensures p <= Advance(logs, limit, p) <= |final|
    ensures Collect(polls, logs[0][p - 1]) ==
            if LiveOk(logs, limit, p) then Some(final[p..Advance(logs, limit, p)]) else None
    decreases |logs|
  {
    var log, rest := logs[0], logs[1..];
    var next := Upto(limit, p, |log|);
    if rest != [] {
      SeriesTail(polls, logs, limit, final);
      assert rest[0][next - 1] == log[next - 1];
      CollectMeaning(polls[1..], rest, limit, next, final);
    }
    if |log[p - 1].id| == 32 {
      CollectStep(polls, log, limit, p);
      Join(log, final, p, next, Advance(rest, limit, next));
    } else {
      assert polls[0](log[p - 1]).None?;
    }
  }

  /**
    Polling collects every new event exactly once and in order: what it has is always one unbroken stretch of the log.
    It does so exactly if every cursor it sends carries an identifier of 32 characters; otherwise it ends with an error.
   */
  lemma PollingCollects(logs: seq<seq<Event>>, limit: nat, p: nat, final: seq<Event>)
    requires Grows(logs) && 1 <= limit && logs != [] && 1 <= p <= |logs[0]|
    requires forall i :: 0 <= i < |logs| ==> Ascending(logs[i]) && logs[i] <= final
    ensures p <= Advance(logs, limit, p) <= |final|
    ensures Collect(seq(|logs|, i requires 0 <= i < |logs| => Polled(logs[i], limit)), logs[0][p - 1]) ==
            if LiveOk(logs, limit, p) then Some(final[p..Advance(logs, limit, p)]) else None
  {
    var polls := seq(|logs|, i requires 0 <= i < |logs| => Polled(logs[i], limit));
    forall i | 0 <= i < |logs|
      ensures PollsPages(polls[i], logs[i], limit)
    {
      ServerPolls(logs[i], limit);
    }
    CollectMeaning(polls, logs, limit, p, final);
  }

  lemma ServerPoll(log: seq<Event>, limit: nat, k: nat)
    requires Ascending(log) && 1 <= limit && k < |log|
    ensures var page := Polled(log, limit)(log[k]);
            if |log[k].id| == 32 then PollFits(page, log, limit, k + 1) else page.None?
  {
    if |log[k].id| == 32 {
      PollBehind(log, limit, k + 1);
    }
  }

  lemma ServerPolls(log: seq<Event>, limit: nat)
    requires Ascending(log) && 1 <= limit
    ensures PollsPages(Polled(log, limit), log, limit)
  {
    forall k | 0 <= k < |log|
      ensures if |log[k].id| == 32 then PollFits(Polled(log, limit)(log[k]), log, limit, k + 1)
              else Polled(log, limit)(log[k]).None?
    {
      ServerPoll(log, limit, k);
    }
  }

  lemma Join(log: seq<Event>, final: seq<Event>, p: nat, next: nat, end: nat)
    requires log <= final && p <= next <= |log| && next <= end <= |final|
    ensures log[p..next] + final[next..end] == final[p..end]
  {
  }

  lemma GrowsTail(logs: seq<seq<Event>>)
    requires Grows(logs) && logs != []
    ensures Grows(logs[1..])
    ensures |logs| > 1 ==> logs[0] <= logs[1..][0]
  {
    var rest := logs[1..];
    if |logs| > 1 {
      assert logs[0] <= logs[0 + 1];
    }
    forall i | 0 <= i < |rest| - 1
      ensures rest[i] <= rest[i + 1]
    {
      assert logs[i + 1] <= logs[i + 1 + 1];
    }
  }

  /** Starting on an empty log there is no live cursor: the next poll then sees all new events exactly if they fit
      one page. */
  lemma EmptyStart(log: seq<Event>, limit: nat)
    requires Ascending(log) && 1 <= limit
    ensures Read([], limit, None, None) == Some(Page([], false, None, None))
    ensures Reverse(Read(log, limit, None, None).value.entries) == log <==> |log| <= limit
  {
    PageBelow(log, limit, |log|);
    PageBelow([], limit, 0);
    var low := Low(limit, |log|);
    assert log[low..|log|] == log[low..];
    ReverseTwice(log[low..]);
    if low == 0 {
      assert log[low..] == log;
    }
  }
}
