/** Retention of logs: three trimming loops and the optimal cuts they compute. */
module LogRetention {
  import opened Common

  function Total(sizes: seq<nat>): nat {
    if sizes == [] then 0 else sizes[0] + Total(sizes[1..])
  }

  lemma {:induction false} TotalSplit(a: seq<nat>, b: seq<nat>)
    ensures Total(a + b) == Total(a) + Total(b)
  {
    if a == [] {
      assert a + b == b;
    } else {
      assert (a + b)[1..] == a[1..] + b;
      TotalSplit(a[1..], b);
    }
  }

  predicate Fits(sizes: seq<nat>, most: nat, budget: nat) {
    |sizes| <= most && Total(sizes) <= budget
  }

  lemma PrefixFits(sizes: seq<nat>, k: nat, most: nat, budget: nat)
    requires k <= |sizes| && Fits(sizes, most, budget)
    ensures Fits(sizes[..k], most, budget)
  {
    TotalSplit(sizes[..k], sizes[k..]);
    assert sizes[..k] + sizes[k..] == sizes;
  }

  function Sizes(lines: seq<Bytes>): seq<nat> {
    seq(|lines|, i requires 0 <= i < |lines| => |lines[i]|)
  }

  // ---------------------------------------------------------------- a log file

  /** The lines that are not longer than the whole budget. */
  function Storable(lines: seq<Bytes>, budget: nat): seq<Bytes> {
    if lines == [] then []
    else
      var n := |lines| - 1;
      Storable(lines[..n], budget) + if |lines[n]| > budget then [] else [lines[n]]
  }

  /** Which lines are storable is decided line by line, in order. */
  lemma {:induction false} StorableSplits(a: seq<Bytes>, b: seq<Bytes>, budget: nat)
    ensures Storable(a + b, budget) == Storable(a, budget) + Storable(b, budget)
    decreases |b|
  {
    if b == [] {
      assert a + b == a;
    } else {
      var n := |b| - 1;
      assert (a + b)[..|a + b| - 1] == a + b[..n];
      StorableSplits(a, b[..n], budget);
    }
  }

  /** A line stays exactly if the whole budget can hold it. */
  lemma StorableLine(line: Bytes, budget: nat)
    ensures Storable([line], budget) == if |line| <= budget then [line] else []
  {
    assert [line][..0] == [];
  }

  /** The suffix from k on fits, and no longer suffix does. */
  ghost predicate LongestSuffix(lines: seq<Bytes>, k: nat, most: nat, budget: nat) {
    && k <= |lines| && Fits(Sizes(lines[k..]), most, budget)
    && forall j :: 0 <= j < k ==> !Fits(Sizes(lines[j..]), most, budget)
  }

  /** A suffix that did not fit fits no better with one more line. */
  lemma StillTooLong(lines: seq<Bytes>, line: Bytes, j: nat, most: nat, budget: nat)
    requires j <= |lines| && !Fits(Sizes(lines[j..]), most, budget)
    ensures !Fits(Sizes((lines + [line])[j..]), most, budget)
  {
    assert (lines + [line])[j..] == lines[j..] + [line];
    assert Sizes(lines[j..] + [line]) == Sizes(lines[j..]) + [|line|];
    TotalSplit(Sizes(lines[j..]), [|line|]);
  }

  /** The loop over the file keeps the longest suffix of the storable lines that meets both limits. */
  method TrimLogFile(lines: seq<Bytes>, most: nat, budget: nat) returns (retained: seq<Bytes>)
    ensures exists k :: 0 <= k <= |Storable(lines, budget)| && retained == Storable(lines, budget)[k..]
              && LongestSuffix(Storable(lines, budget), k, most, budget)
  {
    retained := [];
    var total := 0;
    ghost var k := 0;
    var i := 0;
    while i < |lines|
      invariant 0 <= i <= |lines|
      invariant LongestSuffix(Storable(lines[..i], budget), k, most, budget)
      invariant retained == Storable(lines[..i], budget)[k..] && total == Total(Sizes(retained))
    {
      var line := lines[i];
      ghost var before := Storable(lines[..i], budget);
      assert lines[..i + 1][..i] == lines[..i];
      i := i + 1;
      if |line| > budget {
        assert Storable(lines[..i], budget) == before + [] == before;
        continue;
      }
      ghost var all := before + [line];
      assert Storable(lines[..i], budget) == all;
      forall j | 0 <= j < k
        ensures !Fits(Sizes(all[j..]), most, budget)
      {
        StillTooLong(before, line, j, most, budget);
      }
      assert Sizes(retained + [line]) == Sizes(retained) + [|line|];
      TotalSplit(Sizes(retained), [|line|]);
      retained := retained + [line];
      total := total + |line|;
      assert retained == all[k..];
      while |retained| > most || total > budget
        invariant k <= |all| && retained == all[k..] && total == Total(Sizes(retained))
        invariant forall j :: 0 <= j < k ==> !Fits(Sizes(all[j..]), most, budget)
        decreases |retained|
      {
        assert Sizes(retained)[1..] == Sizes(retained[1..]);
        total := total - |retained[0]|;
        retained := retained[1..];
        k := k + 1;
      }
    }
    assert lines[..i] == lines;
  }

  // ---------------------------------------------------------------- audit events

  /** An event row; `size` is what the budget counts for it. */
  datatype Event = Event(id: string, created: int, size: nat)

  function EventSizes(events: seq<Event>): seq<nat> {
    seq(|events|, i requires 0 <= i < |events| => events[i].size)
  }

  function Without(events: seq<Event>, ids: seq<string>): seq<Event> {
    if events == [] then []
    else (if events[0].id in ids then [] else [events[0]]) + Without(events[1..], ids)
  }

  function Recent(events: seq<Event>, cutoff: int): seq<Event> {
    if events == [] then []
    else (if events[0].created < cutoff then [] else [events[0]]) + Recent(events[1..], cutoff)
  }

  /** Which events are recent is decided event by event, in order: those not older than the cutoff. */
  lemma {:induction false} RecentSplits(a: seq<Event>, b: seq<Event>, cutoff: int)
    ensures Recent(a + b, cutoff) == Recent(a, cutoff) + Recent(b, cutoff)
  {
    if a == [] {
      assert a + b == b;
    } else {
      assert (a + b)[1..] == a[1..] + b;
      RecentSplits(a[1..], b, cutoff);
    }
  }

  lemma RecentEvent(event: Event, cutoff: int)
    ensures Recent([event], cutoff) == if cutoff <= event.created then [event] else []
  {
    assert [event][1..] == [];
  }

  /** What a budget counts is the sum of the sizes. */
  lemma TotalAdds(sizes: seq<nat>, size: nat)
    ensures Total([]) == 0 && Total(sizes + [size]) == Total(sizes) + size
  {
    TotalSplit(sizes, [size]);
    assert [size][1..] == [];
  }

  function IdsOf(events: seq<Event>): seq<string> {
    seq(|events|, i requires 0 <= i < |events| => events[i].id)
  }

  lemma {:induction false} WithoutSplit(a: seq<Event>, b: seq<Event>, ids: seq<string>)
    ensures Without(a + b, ids) == Without(a, ids) + Without(b, ids)
  {
    if a == [] {
      assert a + b == b;
    } else {
      assert (a + b)[1..] == a[1..] + b;
      WithoutSplit(a[1..], b, ids);
    }
  }

  lemma {:induction false} WithoutNone(events: seq<Event>, ids: seq<string>)
    requires forall e :: e in events ==> e.id !in ids
    ensures Without(events, ids) == events
  {
    if events != [] {
      assert events[0] in events && forall e :: e in events[1..] ==> e in events;
      WithoutNone(events[1..], ids);
    }
  }

  lemma {:induction false} WithoutAll(events: seq<Event>, ids: seq<string>)
    requires forall e :: e in events ==> e.id in ids
    ensures Without(events, ids) == []
  {
    if events != [] {
      assert events[0] in events && forall e :: e in events[1..] ==> e in events;
      WithoutAll(events[1..], ids);
    }
  }

  lemma DistinctApart(a: seq<Event>, b: seq<Event>, x: Event, y: Event)
    requires Distinct(IdsOf(a + b)) && x in a && y in b
    ensures x.id != y.id
  {
    var i :| 0 <= i < |a| && a[i] == x;
    var j :| 0 <= j < |b| && b[j] == y;
    assert IdsOf(a + b)[i] == x.id && IdsOf(a + b)[|a| + j] == y.id;
  }

  lemma IdIn(events: seq<Event>, id: string)
    ensures id in IdsOf(events) <==> exists e :: e in events && e.id == id
  {
    if id in IdsOf(events) {
      var i :| 0 <= i < |events| && IdsOf(events)[i] == id;
      assert events[i] in events;
    }
    if e :| e in events && e.id == id {
      var i :| 0 <= i < |events| && events[i] == e;
      assert IdsOf(events)[i] == id;
    }
  }

  lemma OuterKept(head: seq<Event>, slice: seq<Event>, tail: seq<Event>, e: Event)
    requires Distinct(IdsOf(head + slice + tail)) && (e in head || e in tail)
    ensures e.id !in IdsOf(slice)
  {
    IdIn(slice, e.id);
    if x :| x in slice && x.id == e.id {
      if e in head {
        assert head + slice + tail == head + (slice + tail) && x in slice + tail;
        DistinctApart(head, slice + tail, e, x);
      } else {
        assert x in head + slice;
        DistinctApart(head + slice, tail, x, e);
      }
    }
  }

  lemma PartKept(head: seq<Event>, slice: seq<Event>, tail: seq<Event>)
    requires Distinct(IdsOf(head + slice + tail))
    ensures Without(head, IdsOf(slice)) == head && Without(tail, IdsOf(slice)) == tail
  {
    forall e | e in head || e in tail
      ensures e.id !in IdsOf(slice)
    {
      OuterKept(head, slice, tail, e);
    }
    WithoutNone(head, IdsOf(slice));
    WithoutNone(tail, IdsOf(slice));
  }

  lemma SliceGone(slice: seq<Event>)
    ensures Without(slice, IdsOf(slice)) == []
  {
    forall e | e in slice
      ensures e.id in IdsOf(slice)
    {
      IdIn(slice, e.id);
    }
    WithoutAll(slice, IdsOf(slice));
  }

  /** Removing a slice of a list with distinct ids by its ids leaves the two outer parts. */
  lemma WithoutSlice(head: seq<Event>, slice: seq<Event>, tail: seq<Event>, ids: seq<string>)
    requires Distinct(IdsOf(head + slice + tail)) && ids == IdsOf(slice)
    ensures Without(head + slice + tail, ids) == head + tail
  {
    PartKept(head, slice, tail);
    SliceGone(slice);
    WithoutSplit(head + slice, tail, ids);
    WithoutSplit(head, slice, ids);
    assert head + [] == head;
  }

  ghost predicate LongestPrefix(events: seq<Event>, n: nat, most: nat, budget: nat) {
    && n <= |events| && Fits(EventSizes(events[..n]), most, budget)
    && forall j :: n < j <= |events| ==> !Fits(EventSizes(events[..j]), most, budget)
  }

  lemma DistinctTail(events: seq<Event>)
    requires events != [] && Distinct(IdsOf(events))
    ensures Distinct(IdsOf(events[1..])) && events[0].id !in IdsOf(events[1..])
  {
    assert forall i :: 0 <= i < |events| - 1 ==> IdsOf(events[1..])[i] == IdsOf(events)[i + 1] != IdsOf(events)[0];
  }

  lemma DistinctCons(first: Event, tail: seq<Event>)
    requires Distinct(IdsOf(tail)) && first.id !in IdsOf(tail)
    ensures Distinct(IdsOf([first] + tail))
    ensures forall id :: id in IdsOf([first] + tail) <==> id == first.id || id in IdsOf(tail)
  {
    assert IdsOf([first] + tail) == [first.id] + IdsOf(tail);
  }

  lemma {:induction false} RecentDistinct(events: seq<Event>, cutoff: int)
    requires Distinct(IdsOf(events))
    ensures Distinct(IdsOf(Recent(events, cutoff)))
    ensures forall id :: id in IdsOf(Recent(events, cutoff)) ==> id in IdsOf(events)
  {
    if events != [] {
      DistinctTail(events);
      RecentDistinct(events[1..], cutoff);
      DistinctCons(events[0], events[1..]);
      assert events == [events[0]] + events[1..];
      if events[0].created >= cutoff {
        DistinctCons(events[0], Recent(events[1..], cutoff));
      } else {
        assert Recent(events, cutoff) == Recent(events[1..], cutoff);
      }
    }
  }

  /** One more event: the prefix that fits grows, or it has found its end. */
  lemma PrefixStep(all: seq<Event>, n: nat, count: nat, most: nat, budget: nat)
    requires n <= count < |all| && Fits(EventSizes(all[..n]), most, budget)
    requires forall j :: n < j <= count ==> !Fits(EventSizes(all[..j]), most, budget)
    ensures Total(EventSizes(all[..count + 1])) == Total(EventSizes(all[..count])) + all[count].size
    ensures Fits(EventSizes(all[..count + 1]), most, budget) ==> n == count
  {
    assert EventSizes(all[..count + 1]) == EventSizes(all[..count]) + [all[count].size];
    TotalSplit(EventSizes(all[..count]), [all[count].size]);
    if Fits(EventSizes(all[..count + 1]), most, budget) {
      assert EventSizes(all[..count + 1])[..count] == EventSizes(all[..count]);
      PrefixFits(EventSizes(all[..count + 1]), count, most, budget);
    }
  }

  /** The walk, newest first: what is over either budget is stale. */
  method FindStale(all: seq<Event>, most: nat, budget: nat) returns (stale: seq<string>)
    ensures exists n :: 0 <= n <= |all| && LongestPrefix(all, n, most, budget) && stale == IdsOf(all[n..])
  {
    var used, count := 0, 0;
    stale := [];
    ghost var n := 0;
    while count < |all|
      invariant 0 <= n <= count <= |all| && used == Total(EventSizes(all[..count]))
      invariant Fits(EventSizes(all[..n]), most, budget)
      invariant forall j :: n < j <= count ==> !Fits(EventSizes(all[..j]), most, budget)
      invariant stale == IdsOf(all[n..count])
    {
      PrefixStep(all, n, count, most, budget);
      count := count + 1;
      used := used + all[count - 1].size;
      if count > most || used > budget {
        assert all[n..count] == all[n..count - 1] + [all[count - 1]];
        stale := stale + [all[count - 1].id];
      } else {
        n := count;
      }
    }
    assert all[n..count] == all[n..];
  }

  class AuditLog {
    /** The rows, newest first. */
    var events: seq<Event>

    constructor (events: seq<Event>)
      ensures this.events == events
    {
      this.events := events;
    }

    /** Deletes the ids in batches of 200: what stood before them stays. */
    method Delete(stale: seq<string>, ghost n: nat)
      requires n <= |events| && Distinct(IdsOf(events)) && stale == IdsOf(events[n..])
      modifies this
      ensures events == old(events)[..n]
    {
      ghost var all := events;
      var start := 0;
      assert all == all[..n] + all[n..];
      while start < |stale|
        invariant 0 <= start
        invariant events == all[..n] + all[n..][if start < |stale| then start else |stale|..]
      {
        var end := if start + 200 < |stale| then start + 200 else |stale|;
        BatchGone(all, n, start, end);
        events := Without(events, stale[start..end]);
        start := start + 200;
      }
    }

    /** Deletes the expired rows, walks the rest newest first, and deletes what is over either budget. */
    method Trim(cutoff: int, most: nat, budget: nat)
      requires Distinct(IdsOf(events))
      modifies this
      ensures exists n :: 0 <= n <= |Recent(old(events), cutoff)| && events == Recent(old(events), cutoff)[..n]
                && LongestPrefix(Recent(old(events), cutoff), n, most, budget)
    {
      RecentDistinct(events, cutoff);
      events := Recent(events, cutoff);
      var stale := FindStale(events, most, budget);
      ghost var n :| 0 <= n <= |events| && LongestPrefix(events, n, most, budget) && stale == IdsOf(events[n..]);
      Delete(stale, n);
    }
  }

  /** One batch goes, and nothing else. */
  lemma BatchGone(all: seq<Event>, n: nat, start: nat, end: nat)
    requires n <= |all| && start <= end <= |all| - n && Distinct(IdsOf(all))
    ensures Without(all[..n] + all[n..][start..], IdsOf(all[n..])[start..end]) == all[..n] + all[n..][end..]
  {
    var over := all[n..];
    DistinctParts(all, n, start, end);
    assert all[..n] + over[start..] == all[..n] + over[start..end] + over[end..];
    assert IdsOf(over)[start..end] == IdsOf(over[start..end]);
    WithoutSlice(all[..n], over[start..end], over[end..], IdsOf(over)[start..end]);
  }

  lemma DistinctParts(all: seq<Event>, n: nat, start: nat, end: nat)
    requires n <= |all| && start <= end <= |all| - n && Distinct(IdsOf(all))
    ensures Distinct(IdsOf(all[..n] + all[n..][start..end] + all[n..][end..]))
  {
    var part := all[..n] + all[n..][start..end] + all[n..][end..];
    forall i | 0 <= i < |part|
      ensures part[i] == all[if i < n then i else i + start]
    {
    }
    forall i, j | 0 <= i < j < |part|
      ensures IdsOf(part)[i] != IdsOf(part)[j]
    {
      assert IdsOf(all)[if i < n then i else i + start] != IdsOf(all)[if j < n then j else j + start];
    }
  }

  // ---------------------------------------------------------------- a log directory

  datatype File = File(name: string, modified: int, size: nat)

  function FileSizes(files: seq<File>): seq<nat> {
    seq(|files|, i requires 0 <= i < |files| => files[i].size)
  }

  /** The files that stay: those that are recent enough and, with all later ones, within the budget. */
  function Survivors(files: seq<File>, cutoff: int, budget: nat): seq<File> {
    if files == [] then []
    else (if files[0].modified < cutoff || Total(FileSizes(files)) > budget then []
          else [files[0]]) + Survivors(files[1..], cutoff, budget)
  }

  lemma {:induction false} SurvivorsSmaller(files: seq<File>, cutoff: int, budget: nat)
    ensures Total(FileSizes(Survivors(files, cutoff, budget))) <= Total(FileSizes(files))
  {
    if files != [] {
      SurvivorsSmaller(files[1..], cutoff, budget);
      var rest := Survivors(files[1..], cutoff, budget);
      assert FileSizes(files) == [files[0].size] + FileSizes(files[1..]);
      assert FileSizes([files[0]] + rest) == [files[0].size] + FileSizes(rest);
      assert [] + rest == rest;
    }
  }

  /** The place of a file decides: it stays exactly if it is recent enough and the budget holds it with all later
      ones. */
  lemma {:induction false} SurvivorAt(files: seq<File>, cutoff: int, budget: nat, i: nat)
    requires i < |files| && forall x, y :: 0 <= x < y < |files| ==> files[x] != files[y]
    ensures files[i] in Survivors(files, cutoff, budget) <==>
      cutoff <= files[i].modified && Total(FileSizes(files[i..])) <= budget
  {
    var rest := Survivors(files[1..], cutoff, budget);
    SurvivorsAmong(files[1..], cutoff, budget);
    if i == 0 {
      assert files[0..] == files && files[0] !in files[1..];
    } else {
      assert files[1..][i - 1] == files[i] && files[1..][i - 1..] == files[i..];
      SurvivorAt(files[1..], cutoff, budget, i - 1);
    }
  }

  lemma {:induction false} SurvivorsAmong(files: seq<File>, cutoff: int, budget: nat)
    ensures forall f :: f in Survivors(files, cutoff, budget) ==> f in files
  {
    if files != [] {
      SurvivorsAmong(files[1..], cutoff, budget);
    }
  }

  /** The directory always ends within its budget. */
  lemma {:induction false} SurvivorsFit(files: seq<File>, cutoff: int, budget: nat)
    ensures Total(FileSizes(Survivors(files, cutoff, budget))) <= budget
  {
    if files != [] {
      if files[0].modified < cutoff || Total(FileSizes(files)) > budget {
        SurvivorsFit(files[1..], cutoff, budget);
        assert [] + Survivors(files[1..], cutoff, budget) == Survivors(files[1..], cutoff, budget);
      } else {
        SurvivorsSmaller(files, cutoff, budget);
      }
    }
  }

  /** The order in which the files are considered: audit.jsonl last, the others from the oldest on. */
  ghost predicate Ordered(files: seq<File>) {
    forall i, j :: 0 <= i < j < |files| ==>
      files[i].name != files[j].name && files[i].name != "audit.jsonl"
      && (files[j].name != "audit.jsonl" ==> files[i].modified <= files[j].modified)
  }

  lemma {:induction false} SurvivorsSplit(head: seq<File>, last: File, cutoff: int, budget: nat)
    ensures last in Survivors(head + [last], cutoff, budget) <== last.modified >= cutoff && last.size <= budget
  {
    var files := head + [last];
    if head == [] {
      assert files[1..] == [] && Survivors([], cutoff, budget) == [];
      assert FileSizes(files) == [last.size] && FileSizes(files)[1..] == [];
      assert Total(FileSizes(files)) == last.size && files[0] == last;
    } else {
      assert files[1..] == head[1..] + [last];
      SurvivorsSplit(head[1..], last, cutoff, budget);
    }
  }

  lemma AuditIsLast(files: seq<File>, i: nat)
    requires Ordered(files) && i < |files| && files[i].name == "audit.jsonl"
    ensures i == |files| - 1
  {
    var last := files[|files| - 1];
  }

  /** audit.jsonl goes only if it is expired or larger than the whole budget. */
  lemma AuditGoesLast(files: seq<File>, audit: File, cutoff: int, budget: nat)
    requires Ordered(files) && audit in files && audit.name == "audit.jsonl" && audit.modified >= cutoff
      && audit.size <= budget
    ensures audit in Survivors(files, cutoff, budget)
  {
    var i :| 0 <= i < |files| && files[i] == audit;
    var n := |files| - 1;
    var last := files[n];
    AuditIsLast(files, i);
    assert last == audit && files == files[..n] + [last];
    SurvivorsSplit(files[..n], audit, cutoff, budget);
  }

  /** One file of the removal loop. */
  lemma RemovalStep(files: seq<File>, k: nat, kept: seq<File>, cutoff: int, budget: nat)
    requires k < |files|
    ensures var more := if files[k].modified < cutoff || Total(FileSizes(files[k..])) > budget then kept
                        else kept + [files[k]];
      kept + Survivors(files[k..], cutoff, budget) == more + Survivors(files[k + 1..], cutoff, budget)
    ensures Total(FileSizes(files[k..])) == files[k].size + Total(FileSizes(files[k + 1..]))
  {
    var rest := files[k..];
    assert rest[0] == files[k] && rest[1..] == files[k + 1..];
    assert FileSizes(rest) == [files[k].size] + FileSizes(rest[1..]);
    assert kept + ([files[k]] + Survivors(rest[1..], cutoff, budget)) ==
      kept + [files[k]] + Survivors(rest[1..], cutoff, budget);
    assert kept + ([] + Survivors(rest[1..], cutoff, budget)) == kept + Survivors(rest[1..], cutoff, budget);
  }

  /** The removal loop with its running total. */
  method TrimDirectory(files: seq<File>, cutoff: int, budget: nat) returns (kept: seq<File>)
    ensures kept == Survivors(files, cutoff, budget) && Total(FileSizes(kept)) <= budget
  {
    var total := SumSizes(files);
    kept := [];
    var k := 0;
    assert files[k..] == files && kept + Survivors(files, cutoff, budget) == Survivors(files, cutoff, budget);
    while k < |files|
      invariant 0 <= k <= |files|
      invariant Survivors(files, cutoff, budget) == kept + Survivors(files[k..], cutoff, budget)
      invariant total == Total(FileSizes(kept)) + Total(FileSizes(files[k..]))
      invariant kept != [] ==> total <= budget
    {
      RemovalStep(files, k, kept, cutoff, budget);
      if files[k].modified < cutoff || total > budget {
        total := total - files[k].size;
      } else {
        KeptGrows(kept, files[k]);
        kept := kept + [files[k]];
      }
      k := k + 1;
    }
    SurvivorsFit(files, cutoff, budget);
    assert kept + Survivors([], cutoff, budget) == kept && files[k..] == [];
  }

  lemma KeptGrows(kept: seq<File>, file: File)
    ensures Total(FileSizes(kept + [file])) == Total(FileSizes(kept)) + file.size
  {
    assert FileSizes(kept + [file]) == FileSizes(kept) + [file.size];
    TotalSplit(FileSizes(kept), [file.size]);
  }

  method SumSizes(files: seq<File>) returns (total: nat)
    ensures total == Total(FileSizes(files))
  {
    total := 0;
    for i := 0 to |files|
      invariant total == Total(FileSizes(files[..i]))
    {
      assert files[..i + 1] == files[..i] + [files[i]];
      KeptGrows(files[..i], files[i]);
      total := total + files[i].size;
    }
    assert files[..|files|] == files;
  }
}
