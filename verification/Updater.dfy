/** The release updater: which release it offers, and how its order relates to the Pod comparison. */
module Updater {
  import opened Common
  import opened Versions

  // ---------------------------------------------------------------- versions as the updater reads them

  /** The characters str.strip removes. */
  predicate Space(c: char) {
    || '\t' <= c <= '\r' || '\U{1C}' <= c <= ' ' || c == '\U{85}' || c == '\U{A0}' || c == '\U{1680}'
    || '\U{2000}' <= c <= '\U{200A}' || c == '\U{2028}' || c == '\U{2029}' || c == '\U{202F}' || c == '\U{205F}'
      || c == '\U{3000}'
  }

  function TrimLeft(s: string): string {
    if s != [] && Space(s[0]) then TrimLeft(s[1..]) else s
  }

  function TrimRight(s: string): string {
    if s != [] && Space(s[|s| - 1]) then TrimRight(s[..|s| - 1]) else s
  }

  /** A release version; an empty pre-release text marks a final release. */
  datatype Release = Release(major: nat, minor: nat, patch: nat, pre: string)

  /** Three numbers, and a pre-release behind a hyphen. */
  function ParseBare(s: string): Option<Release> {
    var h := Hyphen(s);
    var core := Split(s[..h], '.');
    if |core| != 3 || !Numeral(core[0]) || !Numeral(core[1]) || !Numeral(core[2]) then None
    else
      var pre := if h == |s| then "" else s[h + 1..];
      if h < |s| && !PrereleaseText(pre) then None
      else Some(Release(Number(core[0]), Number(core[1]), Number(core[2]), pre))
  }

  /** _version. */
  function Parse(text: string): Option<Release> {
    var t := TrimRight(TrimLeft(text));
    ParseBare(if t != [] && t[0] == 'v' then t[1..] else t)
  }

  /** _newer on parsed versions; None stands for a string that is no version. */
  predicate Newer(candidate: Option<Release>, current: Option<Release>) {
    match (candidate, current)
    case (Some(a), Some(b)) =>
      if a.major != b.major then a.major > b.major
      else if a.minor != b.minor then a.minor > b.minor
      else if a.patch != b.patch then a.patch > b.patch
      else if a.pre == "" then b.pre != ""
      else if b.pre == "" then false
      else CompareText(a.pre, b.pre) > 0
    case _ => false
  }

  predicate NewerText(candidate: string, current: string) {
    Newer(Parse(candidate), Parse(current))
  }

  ghost predicate Indifferent(a: Option<Release>, b: Option<Release>) {
    !Newer(a, b) && !Newer(b, a)
  }

  // -------------------------------------------------------- a strict weak order, except at strings that are no version

  /** Between versions the relation is a strict weak order: asymmetric, transitive, and so is indifference. */
  lemma NewerIsStrictWeak(a: Option<Release>, b: Option<Release>, c: Option<Release>)
    requires a.Some? && b.Some? && c.Some?
    ensures !(Newer(a, b) && Newer(b, a))
    ensures Newer(a, b) && Newer(b, c) ==> Newer(a, c)
    ensures Indifferent(a, b) && Indifferent(b, c) ==> Indifferent(a, c)
  {
    TextOrders();
    var x, y, z := a.value.pre, b.value.pre, c.value.pre;
    assert CompareText(x, y) == -CompareText(y, x) && CompareText(y, z) == -CompareText(z, y)
      && CompareText(x, z) == -CompareText(z, x);
    assert CompareText(z, y) < 0 && CompareText(y, x) < 0 ==> CompareText(z, x) < 0;
  }

  /**
    On all strings: the relation is asymmetric and transitive, and indifference carries over exactly unless the middle
    string is no version while the outer two are versions of different rank.
   */
  lemma OrderBreaksIff(a: string, b: string, c: string)
    ensures !(NewerText(a, b) && NewerText(b, a))
    ensures NewerText(a, b) && NewerText(b, c) ==> NewerText(a, c)
    ensures var x, y, z := Parse(a), Parse(b), Parse(c);
      (Indifferent(x, y) && Indifferent(y, z) ==> Indifferent(x, z)) <==> !(y.None? && !Indifferent(x, z))
  {
    var x, y, z := Parse(a), Parse(b), Parse(c);
    if x.Some? && y.Some? {
      NewerIsStrictWeak(x, y, y);
      if z.Some? {
        NewerIsStrictWeak(x, y, z);
      }
    }
  }

  lemma PlainBare(a: char, b: char, c: char)
    requires Digit(a) && Digit(b) && Digit(c)
    ensures ParseBare([a, '.', b, '.', c]) ==
      Some(Release(a as int - '0' as int, b as int - '0' as int, c as int - '0' as int, ""))
  {
    var s := [a, '.', b, '.', c];
    HyphenAt(s, 5);
    assert s[..5] == s;
    CoreParts(a, b, c);
    CoreParts(b, b, b);
    CoreParts(c, c, c);
  }

  lemma PlainRelease(a: char, b: char, c: char)
    requires Digit(a) && Digit(b) && Digit(c)
    ensures Parse([a, '.', b, '.', c]) ==
      Some(Release(a as int - '0' as int, b as int - '0' as int, c as int - '0' as int, ""))
  {
    var s := [a, '.', b, '.', c];
    assert TrimLeft(s) == s && TrimRight(s) == s;
    PlainBare(a, b, c);
  }

  /** 1.0.0 and 2.0.0 are both indifferent to x, and not to each other. */
  lemma OrderBreaks()
    ensures Indifferent(Parse("1.0.0"), Parse("x")) && Indifferent(Parse("x"), Parse("2.0.0"))
    ensures NewerText("2.0.0", "1.0.0")
  {
    PlainRelease('1', '0', '0');
    PlainRelease('2', '0', '0');
    assert "1.0.0" == ['1', '.', '0', '.', '0'] && "2.0.0" == ['2', '.', '0', '.', '0'];
    HyphenAt("x", 1);
    assert "x"[..1] == "x";
    SplitOne("x", '.');
  }

  // ---------------------------------------------------------------- which release is offered

  datatype Published = Published(tag: string, draft: bool)

  predicate Prefixed(tag: string, prefix: string) {
    prefix <= LowerAll(tag)
  }

  function DigitsOf(s: string): (n: nat)
    ensures n <= |s|
  {
    if s == [] || !Digit(s[0]) then 0 else 1 + DigitsOf(s[1..])
  }

  /** A number, and a dot behind it. */
  predicate NumberDot(s: string) {
    0 < DigitsOf(s) < |s| && s[DigitsOf(s)] == '.'
  }

  function AfterDot(s: string): string
    requires NumberDot(s)
  {
    s[DigitsOf(s) + 1..]
  }

  /** The tags that count when no tag names the service: v and three numbers in front. */
  predicate LikeVersion(tag: string) {
    tag != [] && tag[0] == 'v' && NumberDot(tag[1..]) && NumberDot(AfterDot(tag[1..]))
    && DigitsOf(AfterDot(AfterDot(tag[1..]))) > 0
  }

  /** Tags of the service if there are any, otherwise plain version tags. */
  ghost predicate Listed(releases: seq<Published>, prefix: string, i: nat) {
    && i < |releases| && !releases[i].draft
    && if exists j :: 0 <= j < |releases| && !releases[j].draft && Prefixed(releases[j].tag, prefix)
       then Prefixed(releases[i].tag, prefix) else LikeVersion(releases[i].tag)
  }

  function VersionOf(tag: string, prefix: string): string {
    if Prefixed(tag, prefix) then tag[|prefix|..] else if tag != [] && tag[0] == 'v' then tag[1..] else tag
  }

  ghost predicate Eligible(releases: seq<Published>, prefix: string, i: nat) {
    Listed(releases, prefix, i) && Parse(VersionOf(releases[i].tag, prefix)).Some?
  }

  ghost predicate Climbs(s: seq<nat>) {
    forall i, j :: 0 <= i < j < |s| ==> s[i] < s[j]
  }

  /** The two filters. */
  method Candidates(releases: seq<Published>, prefix: string) returns (found: seq<nat>)
    ensures Climbs(found) && forall i: nat :: i in found <==> Listed(releases, prefix, i)
  {
    found := [];
    for k := 0 to |releases|
      invariant Climbs(found) && forall j :: 0 <= j < |found| ==> found[j] < k
      invariant forall i: nat :: i in found <==> i < k && !releases[i].draft && Prefixed(releases[i].tag, prefix)
    {
      if !releases[k].draft && Prefixed(releases[k].tag, prefix) {
        found := found + [k];
      }
    }
    if found != [] {
      assert found[0] in found;
      return;
    }
    assert forall j :: 0 <= j < |releases| && !releases[j].draft ==> !Prefixed(releases[j].tag, prefix) by {
      forall j | 0 <= j < |releases| && !releases[j].draft
        ensures !Prefixed(releases[j].tag, prefix)
      {
        assert j !in found;
      }
    }
    for k := 0 to |releases|
      invariant Climbs(found) && forall j :: 0 <= j < |found| ==> found[j] < k
      invariant forall i: nat :: i in found <==> i < k && !releases[i].draft && LikeVersion(releases[i].tag)
    {
      if !releases[k].draft && LikeVersion(releases[k].tag) {
        found := found + [k];
      }
    }
  }

  /** The parsed releases and where they stand in the list. */
  ghost predicate ParsedAt(releases: seq<Published>, prefix: string, places: seq<nat>, parsed: seq<Release>) {
    && |parsed| == |places|
    && forall j :: 0 <= j < |places| ==>
         places[j] < |releases| && Parse(VersionOf(releases[places[j]].tag, prefix)) == Some(parsed[j])
  }

  lemma ClimbsOn(s: seq<nat>, x: nat)
    requires Climbs(s) && (s != [] ==> s[|s| - 1] < x)
    ensures Climbs(s + [x])
  {
  }

  /** The parsing loop. */
  method ParseAll(releases: seq<Published>, prefix: string, found: seq<nat>) returns (places: seq<nat>,
                  parsed: seq<Release>)
    requires Climbs(found) && forall j :: 0 <= j < |found| ==> found[j] < |releases|
    ensures Climbs(places) && ParsedAt(releases, prefix, places, parsed)
    ensures forall i: nat :: i in places <==> i in found && Parse(VersionOf(releases[i].tag, prefix)).Some?
  {
    places, parsed := [], [];
    for k := 0 to |found|
      invariant ParsedAt(releases, prefix, places, parsed)
      invariant Climbs(places) && (places != [] ==> k > 0 && places[|places| - 1] <= found[k - 1])
      invariant forall i: nat :: i in places <==> i in found[..k] && Parse(VersionOf(releases[i].tag, prefix)).Some?
    {
      assert found[..k + 1] == found[..k] + [found[k]];
      var version := Parse(VersionOf(releases[found[k]].tag, prefix));
      if version.Some? {
        ClimbsOn(places, found[k]);
        places, parsed := places + [found[k]], parsed + [version.value];
      }
    }
    assert found[..|found|] == found;
  }

  /** The selection loop: it returns the first candidate that no other one is newer than. */
  method Select(parsed: seq<Release>) returns (best: Option<nat>)
    ensures best.None? <==> parsed == []
    ensures best.Some? ==>
      best.value < |parsed| && (forall i :: 0 <= i < |parsed| ==> !Newer(Some(parsed[i]), Some(parsed[best.value])))
    ensures best.Some? ==> forall i :: 0 <= i < best.value ==> Newer(Some(parsed[best.value]), Some(parsed[i]))
  {
    best := None;
    var k := 0;
    while k < |parsed|
      invariant 0 <= k <= |parsed|
      invariant best.None? <==> k == 0
      invariant best.Some? ==>
        best.value < k && (forall i :: 0 <= i < k ==> !Newer(Some(parsed[i]), Some(parsed[best.value])))
      invariant best.Some? ==> forall i :: 0 <= i < best.value ==> Newer(Some(parsed[best.value]), Some(parsed[i]))
    {
      if best.None? || Newer(Some(parsed[k]), Some(parsed[best.value])) {
        forall i | 0 <= i < k && best.Some?
          ensures Newer(Some(parsed[k]), Some(parsed[i])) && !Newer(Some(parsed[i]), Some(parsed[k]))
        {
          NewerIsStrictWeak(Some(parsed[k]), Some(parsed[best.value]), Some(parsed[i]));
          NewerIsStrictWeak(Some(parsed[i]), Some(parsed[k]), Some(parsed[best.value]));
          NewerIsStrictWeak(Some(parsed[best.value]), Some(parsed[i]), Some(parsed[k]));
        }
        NewerIsStrictWeak(Some(parsed[k]), Some(parsed[k]), Some(parsed[k]));
        best := Some(k);
      }
      k := k + 1;
    }
  }

  lemma ChosenAmong(releases: seq<Published>, prefix: string, places: seq<nat>, parsed: seq<Release>, choice: nat,
                    i: nat)
    requires ParsedAt(releases, prefix, places, parsed) && Climbs(places) && choice < |places| && i in places
    requires forall j :: 0 <= j < |parsed| ==> !Newer(Some(parsed[j]), Some(parsed[choice]))
    requires forall j :: 0 <= j < choice ==> Newer(Some(parsed[choice]), Some(parsed[j]))
    ensures i < |releases| && places[choice] < |releases|
    ensures !NewerText(VersionOf(releases[i].tag, prefix), VersionOf(releases[places[choice]].tag, prefix))
    ensures i < places[choice] ==>
      NewerText(VersionOf(releases[places[choice]].tag, prefix), VersionOf(releases[i].tag, prefix))
  {
    var j :| 0 <= j < |places| && places[j] == i;
    if choice < j {
      assert places[choice] < places[j];
    }
  }

  /** check_github_release: of the eligible releases, the first one in the list that no other one is newer than. */
  method Available(releases: seq<Published>, service: string) returns (best: Option<nat>)
    ensures var prefix := service + "-v";
      && (best.None? <==> forall i :: 0 <= i < |releases| ==> !Eligible(releases, prefix, i))
      && (best.Some? ==> Eligible(releases, prefix, best.value))
      && (best.Some? ==> forall i :: 0 <= i < |releases| && Eligible(releases, prefix, i) ==>
            && !NewerText(VersionOf(releases[i].tag, prefix), VersionOf(releases[best.value].tag, prefix))
            && (i < best.value ==>
                NewerText(VersionOf(releases[best.value].tag, prefix), VersionOf(releases[i].tag, prefix))))
  {
    var prefix := service + "-v";
    var found := Candidates(releases, prefix);
    assert forall j :: 0 <= j < |found| ==> found[j] in found;
    var places, parsed := ParseAll(releases, prefix, found);
    var choice := Select(parsed);
    if choice.None? {
      return None;
    }
    best := Some(places[choice.value]);
    assert places[choice.value] in places;
    forall i | 0 <= i < |releases| && Eligible(releases, prefix, i)
      ensures !NewerText(VersionOf(releases[i].tag, prefix), VersionOf(releases[best.value].tag, prefix))
      ensures i < best.value ==>
        NewerText(VersionOf(releases[best.value].tag, prefix), VersionOf(releases[i].tag, prefix))
    {
      ChosenAmong(releases, prefix, places, parsed, choice.value, i);
    }
  }
}
