/** The correlation map: which library properties are attached to which entities, and the score drawn from it. */
module Correlation {
  import opened Common

  /** Properties attached to each block, by property id; an entry without an id is "". */
  type Blocks = map<string, seq<string>>

  /** An edge of the drawn map. */
  datatype Link = Link(property: string, block: string)

  function Ids(items: seq<string>): set<string> {
    set x | x in items && x != ""
  }

  function AllIds(blocks: Blocks): set<string> {
    set b, x | b in blocks && x in blocks[b] && x != "" :: x
  }

  /** Only entries with an id count, in the library as in the blocks. */
  lemma IdsMean(items: seq<string>, blocks: Blocks, x: string)
    ensures x in Ids(items) <==> x in items && |x| > 0
    ensures x in AllIds(blocks) <==> exists b :: b in blocks && x in Ids(blocks[b])
  {
    if x in AllIds(blocks) {
      var b :| b in blocks && x in blocks[b];
      assert x in Ids(blocks[b]);
    }
  }

  /** The entities a property is attached to. */
  function Attached(p: string, blocks: Blocks, entities: set<string>): set<string> {
    set b | b in entities && b in blocks && p in blocks[b]
  }

  function Excess(n: nat): nat {
    if n == 0 then 0 else n - 1
  }

  /** Attachments of a property beyond the first. */
  function Extra(p: string, blocks: Blocks, entities: set<string>): nat {
    Excess(|Attached(p, blocks, entities)|)
  }

  ghost function Total(ids: set<string>, blocks: Blocks, entities: set<string>): nat
    decreases ids
  {
    if ids == {} then 0
    else var p :| p in ids; Extra(p, blocks, entities) + Total(ids - {p}, blocks, entities)
  }

  lemma {:induction false} TotalPick(ids: set<string>, blocks: Blocks, entities: set<string>, p: string)
    requires p in ids
    ensures Total(ids, blocks, entities) == Extra(p, blocks, entities) + Total(ids - {p}, blocks, entities)
    decreases ids
  {
    var q :| q in ids
      && Total(ids, blocks, entities) == Extra(q, blocks, entities) + Total(ids - {q}, blocks, entities);
    if q != p {
      TotalPick(ids - {q}, blocks, entities, p);
      TotalPick(ids - {p}, blocks, entities, q);
      assert ids - {q} - {p} == ids - {p} - {q};
    }
  }

  /** Gaining attachments never lowers the total, and keeps it only if no property gained beyond its first. */
  lemma {:induction false} TotalCompare(ids: set<string>, blocks: Blocks, entities: set<string>, more: Blocks,
                                        others: set<string>)
    requires forall p :: p in ids ==> Extra(p, blocks, entities) <= Extra(p, more, others)
    ensures Total(ids, blocks, entities) <= Total(ids, more, others)
    ensures Total(ids, blocks, entities) == Total(ids, more, others) <==>
            forall p :: p in ids ==> Extra(p, blocks, entities) == Extra(p, more, others)
    decreases ids
  {
    if ids != {} {
      var p :| p in ids;
      TotalPick(ids, blocks, entities, p);
      TotalPick(ids, more, others, p);
      TotalCompare(ids - {p}, blocks, entities, more, others);
      assert forall q :: q in ids <==> q == p || q in ids - {p};
    }
  }

  lemma OneMoreTimes(k: nat, n: nat)
    ensures (k + 1) * n == k * n + n
  {
  }

  lemma {:induction false} TotalAtMost(ids: set<string>, blocks: Blocks, entities: set<string>, n: nat)
    requires forall p :: p in ids ==> Extra(p, blocks, entities) <= n
    ensures Total(ids, blocks, entities) <= |ids| * n
    ensures Total(ids, blocks, entities) == |ids| * n <==> forall p :: p in ids ==> Extra(p, blocks, entities) == n
    decreases ids
  {
    if ids != {} {
      var p :| p in ids;
      TotalPick(ids, blocks, entities, p);
      TotalAtMost(ids - {p}, blocks, entities, n);
      OneMoreTimes(|ids - {p}|, n);
      assert forall q :: q in ids <==> q == p || q in ids - {p};
    }
  }

  lemma {:induction false} TotalZero(ids: set<string>, blocks: Blocks, entities: set<string>)
    ensures Total(ids, blocks, entities) == 0 <==> forall p :: p in ids ==> Extra(p, blocks, entities) == 0
    decreases ids
  {
    if ids != {} {
      var p :| p in ids;
      TotalPick(ids, blocks, entities, p);
      TotalZero(ids - {p}, blocks, entities);
      assert forall q :: q in ids <==> q == p || q in ids - {p};
    }
  }

  lemma {:induction false} TotalJoin(a: set<string>, b: set<string>, blocks: Blocks, entities: set<string>)
    requires a !! b
    ensures Total(a + b, blocks, entities) == Total(a, blocks, entities) + Total(b, blocks, entities)
    decreases a
  {
    if a == {} {
      assert a + b == b;
    } else {
      var p :| p in a;
      TotalPick(a, blocks, entities, p);
      TotalPick(a + b, blocks, entities, p);
      assert (a + b) - {p} == (a - {p}) + b;
      TotalJoin(a - {p}, b, blocks, entities);
    }
  }

  function Mean(total: nat, d: nat, n: nat): real
    requires d > 0 && n > 0
  {
    total as real / d as real / n as real
  }

  /** The share of all possible attachments beyond the first that exist. */
  ghost function Score(ids: set<string>, blocks: Blocks, entities: set<string>): real {
    if ids == {} || |entities| < 2 then 0.0
    else Mean(Total(ids, blocks, entities), |entities| - 1, |ids|)
  }

  /** Without a library, or with a single entity, there is nothing to share. */
  lemma NothingToShare(ids: set<string>, blocks: Blocks, entities: set<string>)
    requires ids == {} || |entities| <= 1
    ensures Score(ids, blocks, entities) == 0.0
  {
  }

  lemma AttachedBounded(p: string, blocks: Blocks, entities: set<string>)
    ensures |Attached(p, blocks, entities)| <= |entities|
    ensures |Attached(p, blocks, entities)| == |entities| <==> Attached(p, blocks, entities) == entities
  {
    SubsetSize(Attached(p, blocks, entities), entities);
  }

  lemma {:induction false} SubsetSize(a: set<string>, b: set<string>)
    requires a <= b
    ensures |a| <= |b| && (|a| == |b| <==> a == b)
    decreases a
  {
    if a != {} {
      var x :| x in a;
      SubsetSize(a - {x}, b - {x});
    }
  }

  lemma {:induction false} CastProduct(n: nat, d: nat)
    ensures (n * d) as real == n as real * d as real
  {
    if n > 0 {
      CastProduct(n - 1, d);
      assert n * d == (n - 1) * d + d;
      assert n as real * d as real == (n - 1) as real * d as real + d as real;
    }
  }

  lemma MeanIsShare(t: nat, d: nat, n: nat)
    requires d > 0 && n > 0 && t <= n * d
    ensures 0.0 <= Mean(t, d, n) <= 1.0
    ensures Mean(t, d, n) == 1.0 <==> t == n * d
    ensures Mean(t, d, n) == 0.0 <==> t == 0
  {
    var q := t as real / d as real;
    assert q * d as real == t as real;
    CastProduct(n, d);
    Divide(q, n as real);
    assert q <= n as real by {
      if q > n as real {
        Scale(q, n as real, d as real);
      }
    }
  }

  lemma Scale(a: real, b: real, d: real)
    requires a > b && d > 0.0
    ensures a * d > b * d
  {
    assert (a - b) * d > 0.0;
  }

  lemma Divide(q: real, n: real)
    requires n > 0.0 && q >= 0.0
    ensures 0.0 <= q / n
    ensures q <= n ==> q / n <= 1.0
    ensures q / n == 1.0 <==> q == n
    ensures q / n == 0.0 <==> q == 0.0
  {
    var x := q / n;
    assert x * n == q;
    if x > 1.0 {
      Scale(x, 1.0, n);
    }
  }

  lemma ExtraBounded(p: string, blocks: Blocks, entities: set<string>)
    requires entities != {}
    ensures Extra(p, blocks, entities) <= |entities| - 1
    ensures |entities| >= 2 ==>
      (Extra(p, blocks, entities) == |entities| - 1 <==> Attached(p, blocks, entities) == entities)
  {
    AttachedBounded(p, blocks, entities);
  }

  /** The score is a share; it is full exactly when every property is attached to every entity,
      and empty exactly when no property is shared by two entities. */
  lemma ScoreIsShare(ids: set<string>, blocks: Blocks, entities: set<string>)
    requires ids != {} && |entities| >= 2
    ensures 0.0 <= Score(ids, blocks, entities) <= 1.0
    ensures Score(ids, blocks, entities) == 1.0 <==> forall p :: p in ids ==> Attached(p, blocks, entities) == entities
    ensures Score(ids, blocks, entities) == 0.0 <==> forall p :: p in ids ==> |Attached(p, blocks, entities)| <= 1
  {
    forall p | p in ids
      ensures Extra(p, blocks, entities) <= |entities| - 1
      ensures Extra(p, blocks, entities) == |entities| - 1 <==> Attached(p, blocks, entities) == entities
    {
      ExtraBounded(p, blocks, entities);
    }
    TotalAtMost(ids, blocks, entities, |entities| - 1);
    TotalZero(ids, blocks, entities);
    MeanIsShare(Total(ids, blocks, entities), |entities| - 1, |ids|);
  }

  /** One more attachment of a property to one more entity. */
  function Attach(blocks: Blocks, p: string, b: string): Blocks {
    blocks[b := (if b in blocks then blocks[b] else []) + [p]]
  }

  lemma AttachMeans(blocks: Blocks, entities: set<string>, p: string, b: string, q: string)
    requires b in entities
    ensures Attached(q, Attach(blocks, p, b), entities) ==
      Attached(q, blocks, entities) + if q == p then {b} else {}
  {
  }

  lemma MeanStep(t: nat, d: nat, n: nat)
    requires d > 0 && n > 0
    ensures Mean(t + 1, d, n) == Mean(t, d, n) + 1.0 / d as real / n as real
  {
  }

  lemma SameTotal(ids: set<string>, blocks: Blocks, more: Blocks, entities: set<string>)
    requires forall q :: q in ids ==> Extra(q, blocks, entities) == Extra(q, more, entities)
    ensures Total(ids, blocks, entities) == Total(ids, more, entities)
  {
    TotalCompare(ids, blocks, entities, more, entities);
  }

  lemma AttachExtra(blocks: Blocks, entities: set<string>, p: string, b: string, q: string)
    requires b in entities && b !in Attached(p, blocks, entities)
    ensures Extra(q, Attach(blocks, p, b), entities) == Extra(q, blocks, entities) +
      if q == p && Attached(p, blocks, entities) != {} then 1 else 0
  {
    AttachMeans(blocks, entities, p, b, q);
    if q != p {
      assert Attached(q, Attach(blocks, p, b), entities) == Attached(q, blocks, entities);
    }
  }

  lemma AttachTotal(ids: set<string>, blocks: Blocks, entities: set<string>, p: string, b: string)
    requires p in ids && b in entities && b !in Attached(p, blocks, entities)
    ensures Total(ids, Attach(blocks, p, b), entities) == Total(ids, blocks, entities) +
      if Attached(p, blocks, entities) == {} then 0 else 1
  {
    var more := Attach(blocks, p, b);
    forall q
      ensures Extra(q, more, entities) == Extra(q, blocks, entities) +
        if q == p && Attached(p, blocks, entities) != {} then 1 else 0
    {
      AttachExtra(blocks, entities, p, b, q);
    }
    TotalPick(ids, blocks, entities, p);
    TotalPick(ids, more, entities, p);
    SameTotal(ids - {p}, blocks, more, entities);
  }

  /** Every attachment of a library property to one more entity counts the same, except that the first one of a property
      counts nothing. */
  lemma AttachmentCounts(ids: set<string>, blocks: Blocks, entities: set<string>, p: string, b: string)
    requires p in ids && b in entities && |entities| >= 2 && b !in Attached(p, blocks, entities)
    ensures Score(ids, Attach(blocks, p, b), entities) == Score(ids, blocks, entities) +
      if Attached(p, blocks, entities) == {} then 0.0 else 1.0 / (|entities| - 1) as real / |ids| as real
  {
    AttachTotal(ids, blocks, entities, p, b);
    if Attached(p, blocks, entities) != {} {
      MeanStep(Total(ids, blocks, entities), |entities| - 1, |ids|);
    }
  }

  /** A joint mean equals one of its parts exactly when both parts are equal. */
  lemma MeansAgree(t: nat, u: nat, d: nat, n: nat, m: nat)
    requires d > 0 && n > 0 && m > 0
    ensures Mean(t + u, d, n + m) == Mean(t, d, n) <==> Mean(u, d, m) == Mean(t, d, n)
  {
    Cancel(t as real / d as real, n as real);
    Cancel(u as real / d as real, m as real);
    Cancel((t + u) as real / d as real, (n + m) as real);
    MoreOver(t, u, d as real);
    WeightedMean(Mean(t, d, n), Mean(u, d, m), Mean(t + u, d, n + m), n as real, m as real);
  }

  lemma WeightedMean(x: real, y: real, mean: real, n: real, m: real)
    requires n > 0.0 && m > 0.0 && mean * (n + m) == x * n + y * m
    ensures mean == x <==> y == x
  {
    if mean == x {
      assert x * m == y * m;
    }
    if y == x {
      assert (mean - x) * (n + m) == 0.0;
    }
  }

  lemma Cancel(q: real, n: real)
    requires n > 0.0
    ensures q / n * n == q
  {
  }

  lemma ScoresAgreeIff(a: set<string>, b: set<string>, blocks: Blocks, entities: set<string>)
    requires a !! b && a != {} && b != {} && |entities| >= 2
    ensures Score(a + b, blocks, entities) == Score(a, blocks, entities) <==>
            Score(b, blocks, entities) == Score(a, blocks, entities)
  {
    var t, u := Total(a, blocks, entities), Total(b, blocks, entities);
    TotalJoin(a, b, blocks, entities);
    assert |a + b| == |a| + |b|;
    MeansAgree(t, u, |entities| - 1, |a|, |b|);
  }

  /** The browser counts every attached id as a property, the server only the library. They agree exactly when
      nothing outside the library is attached or the rest scores the same as the library. */
  lemma FormulasAgreeIff(library: set<string>, blocks: Blocks, entities: set<string>)
    ensures var rest := AllIds(blocks) - library;
      Score(library + AllIds(blocks), blocks, entities) == Score(library, blocks, entities) <==>
      rest == {} || Score(rest, blocks, entities) == Score(library, blocks, entities)
  {
    var rest := AllIds(blocks) - library;
    assert library + AllIds(blocks) == library + rest;
    if rest == {} {
      assert library + rest == library;
    } else if library == {} {
      assert library + rest == rest;
    } else if |entities| >= 2 {
      ScoresAgreeIff(library, rest, blocks, entities);
    }
  }

  /** A property outside the library on two entities, and none of the library: 0 on the server, more in the browser. */
  lemma FormulasDiffer(blocks: Blocks, entities: set<string>)
    requires blocks == map["human_general" := ["y"], "object_1" := ["y"]] && entities == {"human_general", "object_1"}
    ensures Score({"x"}, blocks, entities) == 0.0
    ensures Score({"x"} + AllIds(blocks), blocks, entities) != 0.0
  {
    assert "x" != "y" && "y" != "" && "human_general" != "object_1" by {
      assert "x"[0] != "y"[0] && |"human_general"| != |"object_1"|;
    }
    assert AllIds(blocks) - {"x"} == {"y"} by {
      assert "human_general" in blocks && "y" in blocks["human_general"];
    }
    assert |entities| == 2 && Attached("x", blocks, entities) == {} && Attached("y", blocks, entities) == entities;
    ScoreIsShare({"x"}, blocks, entities);
    ScoreIsShare({"y"}, blocks, entities);
    FormulasAgreeIff({"x"}, blocks, entities);
  }

  /** An Object's block renamed to the Subject it becomes. */
  function Moved(blocks: map<string, seq<string>>, source: string, target: string): map<string, seq<string>> {
    if source in blocks then (blocks - {source})[target := blocks[source]] else blocks
  }

  /** Turning an Object into a Subject keeps the score exactly when the Object has a block of its own or the stale
      block of the Subject attaches no property that some entity already has. */
  lemma ConversionKeepsScoreIff(ids: set<string>, blocks: Blocks, entities: set<string>, source: string, target: string)
    requires source in entities && target !in entities
    requires ids != {} && |entities| >= 2
    ensures var others := entities - {source} + {target};
      Score(ids, Moved(blocks, source, target), others) == Score(ids, blocks, entities) <==>
      source in blocks || target !in blocks ||
      forall p :: p in ids && p in blocks[target] ==> Attached(p, blocks, entities) == {}
  {
    var moved, others := Moved(blocks, source, target), entities - {source} + {target};
    assert |others| == |entities|;
    forall p | p in ids
      ensures Extra(p, blocks, entities) <= Extra(p, moved, others)
      ensures Extra(p, blocks, entities) == Extra(p, moved, others) <==>
              source in blocks || target !in blocks || p !in blocks[target] || Attached(p, blocks, entities) == {}
    {
      AttachedMoves(p, blocks, entities, source, target);
    }
    TotalCompare(ids, blocks, entities, moved, others);
    SameMean(Total(ids, blocks, entities), Total(ids, moved, others), |entities| - 1, |ids|);
  }

  lemma SameMean(t: nat, u: nat, d: nat, n: nat)
    requires d > 0 && n > 0
    ensures Mean(t, d, n) == Mean(u, d, n) <==> t == u
  {
    Cancel(t as real / d as real, n as real);
    Cancel(u as real / d as real, n as real);
    Cancel(t as real, d as real);
    Cancel(u as real, d as real);
  }

  lemma MovesAlong(p: string, blocks: Blocks, entities: set<string>, source: string, target: string)
    requires source in entities && target !in entities && source in blocks && p in blocks[source]
    ensures Attached(p, Moved(blocks, source, target), entities - {source} + {target})
         == Attached(p, blocks, entities) - {source} + {target}
  {
  }

  lemma StaleCounts(p: string, blocks: Blocks, entities: set<string>, source: string, target: string)
    requires source in entities && target !in entities && source !in blocks && target in blocks && p in blocks[target]
    ensures Attached(p, Moved(blocks, source, target), entities - {source} + {target})
         == Attached(p, blocks, entities) + {target}
  {
  }

  lemma NothingMoves(p: string, blocks: Blocks, entities: set<string>, source: string, target: string)
    requires source in entities && target !in entities
    requires source in blocks ==> p !in blocks[source]
    requires source !in blocks && target in blocks ==> p !in blocks[target]
    ensures Attached(p, Moved(blocks, source, target), entities - {source} + {target}) == Attached(p, blocks, entities)
  {
  }

  lemma AttachedMoves(p: string, blocks: Blocks, entities: set<string>, source: string, target: string)
    requires source in entities && target !in entities
    ensures |Attached(p, Moved(blocks, source, target), entities - {source} + {target})|
         == |Attached(p, blocks, entities)| + if source !in blocks && target in blocks && p in blocks[target] then 1
                                              else 0
  {
    if source in blocks && p in blocks[source] {
      MovesAlong(p, blocks, entities, source, target);
    } else if source !in blocks && target in blocks && p in blocks[target] {
      StaleCounts(p, blocks, entities, source, target);
    } else {
      NothingMoves(p, blocks, entities, source, target);
    }
  }

  /** A block left behind under the Subject's name comes to life when the Object has none. */
  lemma StaleBlockChangesScore(blocks: Blocks, entities: set<string>)
    requires blocks == map["human_general" := ["x"], "subject_1" := ["x"]] && entities == {"human_general", "object_1"}
    ensures Score({"x"}, Moved(blocks, "object_1", "subject_1"), entities - {"object_1"} + {"subject_1"})
         != Score({"x"}, blocks, entities)
  {
    assert "human_general" != "object_1" && "subject_1" !in entities by {
      assert |"human_general"| != |"object_1"| && "subject_1"[0] != "object_1"[0];
    }
    assert "human_general" in Attached("x", blocks, entities);
    assert "x" in {"x"} && "x" in blocks["subject_1"];
    ConversionKeepsScoreIff({"x"}, blocks, entities, "object_1", "subject_1");
  }

  /** Carrying the properties over needs no luck when the Object has a block or the Subject has none. */
  lemma ConversionCarriesLinks(ids: set<string>, blocks: Blocks, entities: set<string>, source: string, target: string)
    requires source in entities && target !in entities
    requires source in blocks || target !in blocks
    ensures Score(ids, Moved(blocks, source, target), entities - {source} + {target}) == Score(ids, blocks, entities)
    ensures forall p, b :: b != target && b != source ==>
      (b in Attached(p, Moved(blocks, source, target), entities - {source} + {target}) <==>
        b in Attached(p, blocks, entities))
    ensures forall p ::
      target in Attached(p, Moved(blocks, source, target), entities - {source} + {target}) <==>
        source in Attached(p, blocks, entities)
  {
    assert |entities - {source} + {target}| == |entities|;
    if ids != {} && |entities| >= 2 {
      ConversionKeepsScoreIff(ids, blocks, entities, source, target);
    }
  }

  /** The stored correlation map. */
  class CorrelationMap {
    var library: seq<string>
    var properties: Blocks
    var descriptions: map<string, seq<string>>

    /** What an Object-to-Subject conversion does to the stored map. */
    method Rename(source: string, target: string)
      modifies `properties, `descriptions
      ensures properties == Moved(old(properties), source, target)
      ensures descriptions == Moved(old(descriptions), source, target)
      ensures source in old(properties) || target !in old(properties) ==>
        forall ids, entities :: source in entities && target !in entities ==>
          Score(ids, properties, entities - {source} + {target}) == Score(ids, old(properties), entities)
    {
      if source in descriptions {
        var taken := descriptions[source];
        descriptions := descriptions - {source};
        descriptions := descriptions[target := taken];
      }
      if source in properties {
        var taken := properties[source];
        properties := properties - {source};
        properties := properties[target := taken];
      }
      if source in old(properties) || target !in old(properties) {
        forall ids, entities | source in entities && target !in entities
          ensures Score(ids, properties, entities - {source} + {target}) == Score(ids, old(properties), entities)
        {
          ConversionCarriesLinks(ids, old(properties), entities, source, target);
        }
      }
    }

    /** correlation_percentage, before rounding. */
    method ServerScore(entities: set<string>) returns (score: real)
      ensures score == Score(Ids(library), properties, entities)
    {
      var ids := Ids(library);
      if ids == {} || |entities| < 2 {
        return 0.0;
      }
      var counts := map p | p in ids :: 0;
      var todo := properties.Keys;
      while todo != {}
        invariant todo <= properties.Keys && counts.Keys == ids
        invariant forall p :: p in ids ==> counts[p] == |Attached(p, properties, entities - todo)|
        decreases |todo|
      {
        var block :| block in todo;
        if block in entities {
          counts := CountBlock(counts, Ids(properties[block]));
        }
        forall p | p in ids
          ensures counts[p] == |Attached(p, properties, entities - (todo - {block}))|
        {
          OneMore(p, properties, entities, todo, block);
        }
        todo := todo - {block};
      }
      assert entities - todo == entities;
      score := Average(counts, properties, entities);
    }

    /** clientCorrelationPercentage over correlationData, before rounding. */
    method ClientScore(entities: set<string>) returns (score: real)
      ensures score == Score(Ids(library) + AllIds(properties), properties, entities)
    {
      var ids, links := ClientData(entities);
      if ids == {} || |entities| < 2 {
        return 0.0;
      }
      DrawnKnown(Ids(library), links, properties, entities);
      var counts := CountLinks(ids, links);
      TallyIsAttached(ids, links, properties, entities);
      score := Average(counts, properties, entities);
    }

    /** correlationData: one link per attached property of a known entity, and a node per property known or attached. */
    method ClientData(entities: set<string>) returns (ids: set<string>, links: seq<Link>)
      ensures ids == Ids(library) + AllIds(properties)
      ensures Draws(links, properties, entities)
    {
      ids, links := Ids(library), [];
      var todo := properties.Keys;
      while todo != {}
        invariant todo <= properties.Keys
        invariant forall x ::
          x in ids <==> x in Ids(library) || exists b :: b in properties && b !in todo && x in Ids(properties[b])
        invariant Draws(links, properties, entities - todo)
        decreases |todo|
      {
        var block :| block in todo;
        var items := properties[block];
        ids := ids + Ids(items);
        if block in entities {
          links := LinkBlock(links, block, items);
        }
        todo := todo - {block};
      }
      forall x
        ensures x in ids <==> x in Ids(library) || x in AllIds(properties)
      {
      }
      assert entities - todo == entities;
    }
  }

  /** One link for every known entity a property is attached to. */
  ghost predicate Draws(links: seq<Link>, blocks: Blocks, entities: set<string>) {
    && Distinct(links)
    && forall l :: l in links <==> l.property != "" && l.block in Attached(l.property, blocks, entities)
  }

  lemma OneMore(p: string, blocks: Blocks, entities: set<string>, todo: set<string>, block: string)
    requires block in todo && block in blocks
    ensures |Attached(p, blocks, entities - (todo - {block}))|
         == |Attached(p, blocks, entities - todo)| + if block in entities && p in blocks[block] then 1 else 0
  {
    var before, after := Attached(p, blocks, entities - todo), Attached(p, blocks, entities - (todo - {block}));
    if block in entities && p in blocks[block] {
      assert after == before + {block};
    } else {
      assert after == before;
    }
  }

  /** The inner loop of the server: every distinct id of the block that the library knows counts once. */
  method CountBlock(counts: map<string, nat>, ids: set<string>) returns (r: map<string, nat>)
    ensures r.Keys == counts.Keys
    ensures forall p :: p in counts ==> r[p] == counts[p] + if p in ids then 1 else 0
  {
    r := counts;
    var todo := ids;
    while todo != {}
      invariant todo <= ids && r.Keys == counts.Keys
      invariant forall p :: p in counts ==> r[p] == counts[p] + if p in ids && p !in todo then 1 else 0
      decreases |todo|
    {
      var p :| p in todo;
      if p in r {
        r := r[p := r[p] + 1];
      }
      todo := todo - {p};
    }
  }

  /** The final sum, before it is divided by the number of properties. */
  method SumUp(counts: map<string, nat>, ghost blocks: Blocks, ghost entities: set<string>,
               denominator: real) returns (sum: real)
    requires denominator > 0.0
    requires forall p :: p in counts ==> counts[p] == |Attached(p, blocks, entities)|
    ensures sum == Total(counts.Keys, blocks, entities) as real / denominator
  {
    sum := 0.0;
    ghost var done: nat := 0;
    var todo := counts.Keys;
    while todo != {}
      invariant todo <= counts.Keys
      invariant done + Total(todo, blocks, entities) == Total(counts.Keys, blocks, entities)
      invariant sum == done as real / denominator
      decreases |todo|
    {
      var p :| p in todo;
      TotalPick(todo, blocks, entities, p);
      MoreOver(done, Excess(counts[p]), denominator);
      sum := sum + Excess(counts[p]) as real / denominator;
      done := done + Excess(counts[p]);
      todo := todo - {p};
    }
  }

  method Average(counts: map<string, nat>, ghost blocks: Blocks, entities: set<string>) returns (score: real)
    requires |entities| >= 2 && counts.Keys != {}
    requires forall p :: p in counts ==> counts[p] == |Attached(p, blocks, entities)|
    ensures score == Score(counts.Keys, blocks, entities)
  {
    var sum := SumUp(counts, blocks, entities, (|entities| - 1) as real);
    score := sum / |counts.Keys| as real;
  }

  lemma MoreOver(a: int, b: int, d: real)
    requires d > 0.0
    ensures (a + b) as real / d == a as real / d + b as real / d
  {
  }

  function Targets(links: seq<Link>, p: string): set<string> {
    if links == [] then {}
    else Targets(links[..|links| - 1], p) + if links[|links| - 1].property == p then {links[|links| - 1].block} else {}
  }

  lemma {:induction false} TargetsMeaning(links: seq<Link>, p: string, b: string)
    ensures b in Targets(links, p) <==> Link(p, b) in links
    decreases |links|
  {
    if links != [] {
      var n := |links| - 1;
      TargetsMeaning(links[..n], p, b);
      assert links == links[..n] + [links[n]];
    }
  }

  lemma TargetsGrow(links: seq<Link>, i: nat, p: string)
    requires i < |links| && links[i] !in links[..i]
    ensures |Targets(links[..i + 1], p)| == |Targets(links[..i], p)| + if links[i].property == p then 1 else 0
  {
    assert links[..i + 1][..i] == links[..i];
    TargetsMeaning(links[..i], p, links[i].block);
  }

  function Tally(ids: set<string>, links: seq<Link>): map<string, nat> {
    map p | p in ids :: |Targets(links, p)|
  }

  lemma TallyGrows(ids: set<string>, links: seq<Link>, i: nat)
    requires i < |links| && links[i].property in ids
    requires links[i] !in links[..i]
    ensures var before := Tally(ids, links[..i]);
            Tally(ids, links[..i + 1]) == before[links[i].property := before[links[i].property] + 1]
  {
    forall p | p in ids
      ensures |Targets(links[..i + 1], p)| == |Targets(links[..i], p)| + if links[i].property == p then 1 else 0
    {
      TargetsGrow(links, i, p);
    }
  }

  lemma DrawnKnown(library: set<string>, links: seq<Link>, blocks: Blocks, entities: set<string>)
    requires Draws(links, blocks, entities)
    ensures forall l :: l in links ==> l.property in library + AllIds(blocks)
  {
    forall l | l in links
      ensures l.property in AllIds(blocks)
    {
      assert l.block in blocks && l.property in blocks[l.block];
    }
  }

  lemma TallyIsAttached(ids: set<string>, links: seq<Link>, blocks: Blocks, entities: set<string>)
    requires "" !in ids && Draws(links, blocks, entities)
    ensures forall p :: p in ids ==> Tally(ids, links)[p] == |Attached(p, blocks, entities)|
  {
    forall p | p in ids
      ensures Targets(links, p) == Attached(p, blocks, entities)
    {
      forall b
        ensures b in Targets(links, p) <==> b in Attached(p, blocks, entities)
      {
        TargetsMeaning(links, p, b);
        assert Link(p, b).property == p;
      }
    }
  }

  lemma NotBefore(links: seq<Link>, i: nat)
    requires i < |links| && Distinct(links)
    ensures links[i] !in links[..i]
  {
  }

  /** The counting loop of the browser: one more for the property of every link. */
  method CountLinks(ids: set<string>, links: seq<Link>) returns (counts: map<string, nat>)
    requires Distinct(links) && forall l :: l in links ==> l.property in ids
    ensures counts == Tally(ids, links) && counts.Keys == ids
  {
    counts := map p | p in ids :: 0;
    var i := 0;
    while i < |links|
      invariant 0 <= i <= |links|
      invariant counts == Tally(ids, links[..i])
    {
      NotBefore(links, i);
      assert links[i] in links;
      TallyGrows(ids, links, i);
      counts := counts[links[i].property := counts[links[i].property] + 1];
      i := i + 1;
    }
    assert links[..i] == links;
  }

  /** The inner loop of the browser: skip entries without an id and ids already linked to this block. */
  method LinkBlock(links: seq<Link>, block: string, items: seq<string>) returns (r: seq<Link>)
    requires Distinct(links) && forall p :: Link(p, block) !in links
    ensures Distinct(r)
    ensures forall x :: x in r <==> x in links || (x.block == block && x.property in Ids(items))
  {
    r := links;
    var linked: set<string> := {};
    var i := 0;
    while i < |items|
      invariant 0 <= i <= |items| && linked == Ids(items[..i]) && Distinct(r)
      invariant forall x :: x in r <==> x in links || (x.block == block && x.property in linked)
    {
      assert items[..i + 1] == items[..i] + [items[i]];
      if items[i] != "" && items[i] !in linked {
        linked := linked + {items[i]};
        assert Link(items[i], block) !in r;
        r := r + [Link(items[i], block)];
      }
      i := i + 1;
    }
    assert items[..i] == items;
  }
}
