/** Which texts are versions, and release tags, for the Pod comparison and for the updater. */
module VersionGrammar {
  import opened Common
  import opened Versions
  import opened Updater

  // ---------------------------------------------------------------- three numbers and a pre-release

  /** The text of a version: three numbers, and a pre-release behind a hyphen. */
  function Written(a: string, b: string, c: string, pre: Option<string>): string {
    a + "." + b + "." + c + match pre case None => "" case Some(p) => "-" + p
  }

  /** A decimal number. */
  predicate Decimal(s: string) {
    s != "" && forall i | 0 <= i < |s| :: 48 <= s[i] as int <= 57
  }

  /** A decimal number without leading zeros. */
  predicate Canonical(s: string) {
    Decimal(s) && (s == "0" || s[0] != '0')
  }

  /** The characters of a pre-release: ASCII letters and digits, hyphens and dots. */
  predicate PreChar(c: char) {
    var n := c as int;
    48 <= n < 58 || 65 <= n < 91 || 97 <= n < 123 || n == 45 || n == 46
  }

  predicate Prerelease(pre: Option<string>) {
    pre.Some? ==> pre.value != "" && forall c | c in pre.value :: PreChar(c)
  }

  lemma NumeralIff(s: string)
    ensures Numeral(s) <==> Decimal(s)
    ensures CoreNumber(s) <==> Canonical(s)
  {
  }

  lemma PrereleaseIff(p: string)
    ensures PrereleaseText(p) <==> Prerelease(Some(p))
  {
    if Prerelease(Some(p)) {
      assert forall i :: 0 <= i < |p| ==> p[i] in p;
    }
  }

  lemma NoDot(s: string)
    requires Decimal(s)
    ensures '.' !in s && '-' !in s
  {
  }

  lemma CoreSplits(a: string, b: string, c: string)
    requires Decimal(a) && Decimal(b) && Decimal(c)
    ensures Split(a + "." + b + "." + c, '.') == [a, b, c] && '-' !in a + "." + b + "." + c
  {
    NoDot(a);
    NoDot(b);
    NoDot(c);
    SplitOne(c, '.');
    SplitMore(b, c, '.');
    SplitMore(a, b + "." + c, '.');
    assert b + "." + c == b + ['.'] + c && a + "." + b + "." + c == a + ['.'] + (b + "." + c);
  }

  lemma HyphenBehind(core: string, pre: Option<string>)
    requires '-' !in core
    ensures var text := core + match pre case None => "" case Some(p) => "-" + p;
      && Hyphen(text) == |core| && text[..|core|] == core
      && (pre.None? ==> text == core) && (pre.Some? ==> |core| < |text| && text[|core| + 1..] == pre.value)
  {
    var text := core + match pre case None => "" case Some(p) => "-" + p;
    assert forall i :: 0 <= i < |core| ==> core[i] in core && text[i] == core[i];
    HyphenAt(text, |core|);
  }

  /** The text in front of the first hyphen, and its three parts. */
  lemma WrittenParts(a: string, b: string, c: string, pre: Option<string>)
    requires Decimal(a) && Decimal(b) && Decimal(c)
    ensures var text := Written(a, b, c, pre); var h := Hyphen(text);
      && Split(text[..h], '.') == [a, b, c]
      && (pre.None? ==> h == |text|) && (pre.Some? ==> h < |text| && text[h + 1..] == pre.value)
  {
    CoreSplits(a, b, c);
    HyphenBehind(a + "." + b + "." + c, pre);
  }

  lemma CoreJoins(core: string, parts: seq<string>)
    requires parts == Split(core, '.') && |parts| == 3
    ensures core == parts[0] + "." + parts[1] + "." + parts[2]
  {
    JoinSplit(core, '.');
    assert Join(parts, '.') == parts[0] + ['.'] + Join(parts[1..], '.');
    assert Join(parts[1..], '.') == parts[1] + ['.'] + Join(parts[1..][1..], '.') && parts[1..][1..] == [parts[2]];
  }

  lemma SemverOf(s: string, a: string, b: string, c: string, pre: Option<string>)
    requires Split(s[..Hyphen(s)], '.') == [a, b, c] && CoreNumber(a) && CoreNumber(b) && CoreNumber(c)
    requires pre.None? ==> Hyphen(s) == |s|
    requires pre.Some? ==> Hyphen(s) < |s| && s[Hyphen(s) + 1..] == pre.value && PrereleaseText(pre.value)
    ensures Semver(s) ==
      Some(Version(Number(a), Number(b), Number(c),
                   match pre case None => RELEASE case Some(p) => Pieces(Split(p, '.'))))
  {
  }

  /** Every text of this form is a version, with the values of its numbers and the identifiers of its pre-release. */
  lemma SemverReads(a: string, b: string, c: string, pre: Option<string>)
    requires Canonical(a) && Canonical(b) && Canonical(c) && Prerelease(pre)
    ensures Semver(Written(a, b, c, pre)) ==
      Some(Version(Number(a), Number(b), Number(c),
                   match pre case None => RELEASE case Some(p) => Pieces(Split(p, '.'))))
  {
    WrittenParts(a, b, c, pre);
    NumeralIff(a);
    NumeralIff(b);
    NumeralIff(c);
    if pre.Some? {
      PrereleaseIff(pre.value);
    }
    SemverOf(Written(a, b, c, pre), a, b, c, pre);
  }

  /** And no other text is. */
  lemma SemverIsWritten(text: string)
    requires Semver(text).Some?
    ensures exists a, b, c, pre ::
      text == Written(a, b, c, pre) && Canonical(a) && Canonical(b) && Canonical(c) && Prerelease(pre)
  {
    var h := Hyphen(text);
    var core := Split(text[..h], '.');
    var pre := if h == |text| then None else Some(text[h + 1..]);
    CoreJoins(text[..h], core);
    NumeralIff(core[0]);
    NumeralIff(core[1]);
    NumeralIff(core[2]);
    if pre.Some? {
      PrereleaseIff(pre.value);
      AtHyphen(text);
      assert text == text[..h] + "-" + text[h + 1..];
    }
    assert text == Written(core[0], core[1], core[2], pre);
  }

  lemma {:induction false} AtHyphen(s: string)
    ensures Hyphen(s) < |s| ==> s[Hyphen(s)] == '-'
  {
    if s != [] && s[0] != '-' {
      AtHyphen(s[1..]);
    }
  }

  /** The value of a number: each digit counts ten times what follows it. */
  lemma NumberValue(s: string, d: char)
    requires (forall i :: 0 <= i < |s| ==> Digit(s[i])) && Digit(d)
    ensures Number([]) == 0 && Number(s + [d]) == Number(s) * 10 + (d as int - 48)
  {
    assert (s + [d])[..|s|] == s;
  }

  /** The identifiers of a pre-release: the texts between its dots. */
  lemma IdentifiersOf(p: string)
    ensures Join(Split(p, '.'), '.') == p && forall x :: x in Split(p, '.') ==> '.' !in x
  {
    JoinSplit(p, '.');
    PartsFree(p, '.');
  }

  /** A numeric identifier counts by its value and below every other one; any other by its letters without case. */
  lemma IdentifierMeans(x: string)
    ensures Decimal(x) ==> PieceOf(x).tag == 0 && PieceOf(x).value.Num?
    ensures !Decimal(x) ==> PieceOf(x).tag == 1 && PieceOf(x).value.Str? && |PieceOf(x).value.s| == |x|
    ensures !Decimal(x) ==> forall i :: 0 <= i < |x| ==>
      PieceOf(x).value.s[i] as int == x[i] as int + if 65 <= x[i] as int < 91 then 32 else 0
  {
    NumeralIff(x);
  }

  // ---------------------------------------------------------------- the updater's versions

  /** The white space of Unicode as Python strips it, by code point. */
  lemma SpaceIff(c: char)
    ensures var n := c as int;
      Space(c) <==>
        9 <= n < 14 || 28 <= n < 33 || n in {133, 160, 5760} || 8192 <= n < 8203 || n in {8232, 8233, 8239, 8287, 12288}
  {
  }

  /** White space around a version. */
  predicate Spaces(s: string) {
    forall c | c in s :: Space(c)
  }

  lemma {:induction false} LeftTrimmed(pad: string, s: string)
    requires Spaces(pad) && (s != [] ==> !Space(s[0]))
    ensures TrimLeft(pad + s) == s
  {
    if pad == [] {
      assert pad + s == s;
    } else {
      assert pad[0] in pad && (pad + s)[1..] == pad[1..] + s;
      LeftTrimmed(pad[1..], s);
    }
  }

  lemma {:induction false} RightTrimmed(s: string, pad: string)
    requires Spaces(pad) && (s != [] ==> !Space(s[|s| - 1]))
    ensures TrimRight(s + pad) == s
    decreases |pad|
  {
    if pad == [] {
      assert s + pad == s;
    } else {
      var n := |pad| - 1;
      assert pad[n] in pad && (s + pad)[..|s + pad| - 1] == s + pad[..n];
      RightTrimmed(s, pad[..n]);
    }
  }

  lemma BareOf(s: string, a: string, b: string, c: string, pre: Option<string>)
    requires Split(s[..Hyphen(s)], '.') == [a, b, c] && Numeral(a) && Numeral(b) && Numeral(c)
    requires pre.None? ==> Hyphen(s) == |s|
    requires pre.Some? ==> Hyphen(s) < |s| && s[Hyphen(s) + 1..] == pre.value && PrereleaseText(pre.value)
    ensures ParseBare(s) ==
      Some(Release(Number(a), Number(b), Number(c), match pre case None => "" case Some(p) => p))
  {
  }

  lemma BareReads(a: string, b: string, c: string, pre: Option<string>)
    requires Decimal(a) && Decimal(b) && Decimal(c) && Prerelease(pre)
    ensures ParseBare(Written(a, b, c, pre)) ==
      Some(Release(Number(a), Number(b), Number(c), match pre case None => "" case Some(p) => p))
  {
    WrittenParts(a, b, c, pre);
    NumeralIff(a);
    NumeralIff(b);
    NumeralIff(c);
    if pre.Some? {
      PrereleaseIff(pre.value);
    }
    BareOf(Written(a, b, c, pre), a, b, c, pre);
  }

  /** The updater reads the same form with any number of leading zeros, behind an optional v, in any white space. */
  lemma ParseReads(left: string, v: string, a: string, b: string, c: string, pre: Option<string>, right: string)
    requires Spaces(left) && Spaces(right) && v in ["", "v"]
    requires Decimal(a) && Decimal(b) && Decimal(c) && Prerelease(pre)
    ensures Parse(left + ((v + Written(a, b, c, pre)) + right)) ==
      Some(Release(Number(a), Number(b), Number(c), match pre case None => "" case Some(p) => p))
  {
    var s := Written(a, b, c, pre);
    PlainEnds(v, a, b, c, pre);
    LeftTrimmed(left, (v + s) + right);
    RightTrimmed(v + s, right);
    BareReads(a, b, c, pre);
    Unprefixed(v, s);
    assert s[0] == a[0];
  }

  lemma Unprefixed(v: string, s: string)
    requires v in ["", "v"] && s != [] && s[0] != 'v'
    ensures var t := v + s; t != [] && (if t[0] == 'v' then t[1..] else t) == s
  {
    if v == "" {
      assert v + s == s;
    }
  }

  lemma PlainEnds(v: string, a: string, b: string, c: string, pre: Option<string>)
    requires v in ["", "v"] && Decimal(a) && Decimal(b) && Decimal(c) && Prerelease(pre)
    ensures var text := v + Written(a, b, c, pre); text != [] && !Space(text[0]) && !Space(text[|text| - 1])
  {
    var text := v + Written(a, b, c, pre);
    if pre.Some? {
      assert pre.value[|pre.value| - 1] in pre.value && text[|text| - 1] == pre.value[|pre.value| - 1];
    } else {
      assert text[|text| - 1] == c[|c| - 1];
    }
  }

  lemma {:induction false} LeftSplits(s: string) returns (pad: string)
    ensures s == pad + TrimLeft(s) && Spaces(pad)
  {
    if s != [] && Space(s[0]) {
      var rest := LeftSplits(s[1..]);
      pad := [s[0]] + rest;
      assert s == [s[0]] + s[1..];
    } else {
      pad := [];
    }
  }

  lemma {:induction false} RightSplits(s: string) returns (pad: string)
    ensures s == TrimRight(s) + pad && Spaces(pad)
    decreases |s|
  {
    if s != [] && Space(s[|s| - 1]) {
      var rest := RightSplits(s[..|s| - 1]);
      pad := rest + [s[|s| - 1]];
      assert s == s[..|s| - 1] + [s[|s| - 1]];
    } else {
      pad := [];
    }
  }

  /** A text of this form, taken apart. */
  ghost predicate TakenApart(text: string, left: string, v: string, core: seq<string>, pre: Option<string>,
                             right: string) {
    && |core| == 3 && text == left + ((v + Written(core[0], core[1], core[2], pre)) + right)
    && Spaces(left) && Spaces(right) && v in ["", "v"]
    && Decimal(core[0]) && Decimal(core[1]) && Decimal(core[2]) && Prerelease(pre)
  }

  /** The pre-release behind the first hyphen. */
  function PreOf(s: string): Option<string> {
    if Hyphen(s) == |s| then None else Some(s[Hyphen(s) + 1..])
  }

  lemma JoinsWritten(s: string)
    requires |Split(s[..Hyphen(s)], '.')| == 3
    ensures var core := Split(s[..Hyphen(s)], '.'); s == Written(core[0], core[1], core[2], PreOf(s))
  {
    var h := Hyphen(s);
    CoreJoins(s[..h], Split(s[..h], '.'));
    AtHyphen(s);
    if h < |s| {
      assert s == s[..h] + ("-" + s[h + 1..]);
    } else {
      assert s == s[..h] + "";
    }
  }

  /** Three numbers in front of the first hyphen, and a pre-release behind it. */
  ghost predicate Bare(s: string) {
    && |Split(s[..Hyphen(s)], '.')| == 3
    && (forall i :: 0 <= i < 3 ==> Numeral(Split(s[..Hyphen(s)], '.')[i]))
    && Prerelease(PreOf(s))
  }

  lemma BareCore(s: string)
    requires ParseBare(s).Some?
    ensures |Split(s[..Hyphen(s)], '.')| == 3 && forall i :: 0 <= i < 3 ==> Numeral(Split(s[..Hyphen(s)], '.')[i])
  {
  }

  lemma BarePre(s: string, p: string)
    requires ParseBare(s).Some? && Hyphen(s) < |s| && p == s[Hyphen(s) + 1..]
    ensures PrereleaseText(p)
  {
  }

  lemma BareParts(s: string)
    requires ParseBare(s).Some?
    ensures Bare(s)
  {
    BareCore(s);
    if PreOf(s).Some? {
      BarePre(s, PreOf(s).value);
      PrereleaseIff(PreOf(s).value);
    }
  }

  lemma CoreOf(s: string) returns (core: seq<string>, pre: Option<string>)
    requires Bare(s)
    ensures |core| == 3 && s == Written(core[0], core[1], core[2], pre)
    ensures Decimal(core[0]) && Decimal(core[1]) && Decimal(core[2]) && Prerelease(pre)
  {
    core, pre := Split(s[..Hyphen(s)], '.'), PreOf(s);
    JoinsWritten(s);
    NumeralIff(core[0]);
    NumeralIff(core[1]);
    NumeralIff(core[2]);
  }

  lemma Surrounded(text: string) returns (left: string, v: string, s: string, right: string)
    ensures text == left + ((v + s) + right) && Spaces(left) && Spaces(right) && v in ["", "v"]
    ensures Parse(text) == ParseBare(s)
  {
    left := LeftSplits(text);
    right := RightSplits(TrimLeft(text));
    var t := TrimRight(TrimLeft(text));
    v := if t != [] && t[0] == 'v' then "v" else "";
    s := if t != [] && t[0] == 'v' then t[1..] else t;
    assert t == v + s;
  }

  /** And it reads nothing else. */
  lemma ParseIsWritten(text: string)
    requires Parse(text).Some?
    ensures exists left, v, core, pre, right :: TakenApart(text, left, v, core, pre, right)
  {
    var left, v, s, right := Surrounded(text);
    BareParts(s);
    var core, pre := CoreOf(s);
    assert TakenApart(text, left, v, core, pre, right);
  }

  // ---------------------------------------------------------------- tags

  /** A tag of the service: its prefix in any letter case, and the version behind it. */
  lemma PrefixedIff(tag: string, prefix: string)
    ensures Prefixed(tag, prefix) <==> exists head, rest :: tag == head + rest && LowerAll(head) == prefix
    ensures Prefixed(tag, prefix) ==>
      LowerAll(tag[..|prefix|]) == prefix && tag == tag[..|prefix|] + VersionOf(tag, prefix)
  {
    if Prefixed(tag, prefix) {
      assert LowerAll(tag[..|prefix|]) == LowerAll(tag)[..|prefix|] == prefix;
      assert tag == tag[..|prefix|] + tag[|prefix|..];
    }
    if head, rest :| tag == head + rest && LowerAll(head) == prefix {
      assert LowerAll(tag)[..|head|] == LowerAll(head);
    }
  }

  /** Any other tag: without its v, if it has one. */
  lemma PlainTag(tag: string, prefix: string)
    requires !Prefixed(tag, prefix)
    ensures tag == (if tag != [] && tag[0] == 'v' then "v" else "") + VersionOf(tag, prefix)
  {
  }

  lemma {:induction false} DigitsRun(s: string)
    ensures forall i :: 0 <= i < DigitsOf(s) ==> Digit(s[i])
    ensures DigitsOf(s) < |s| ==> !Digit(s[DigitsOf(s)])
  {
    if s != [] && Digit(s[0]) {
      DigitsRun(s[1..]);
    }
  }

  lemma {:induction false} DigitsAt(d: string, rest: string)
    requires (forall i :: 0 <= i < |d| ==> Digit(d[i])) && (rest != [] ==> !Digit(rest[0]))
    ensures DigitsOf(d + rest) == |d|
  {
    if d != [] {
      assert (d + rest)[1..] == d[1..] + rest;
      DigitsAt(d[1..], rest);
    }
  }

  /** A number with a dot behind it at the start of a text. */
  lemma NumberDotIff(s: string)
    ensures NumberDot(s) <==> exists d, rest :: Decimal(d) && s == d + "." + rest
    ensures forall d, rest :: Decimal(d) && s == d + "." + rest ==> NumberDot(s) && AfterDot(s) == rest
  {
    if NumberDot(s) {
      DigitsRun(s);
      var d, rest := s[..DigitsOf(s)], s[DigitsOf(s) + 1..];
      assert s == d + "." + rest && Decimal(d);
    }
    forall d, rest | Decimal(d) && s == d + "." + rest
      ensures NumberDot(s) && AfterDot(s) == rest
    {
      assert s == d + ("." + rest);
      DigitsAt(d, "." + rest);
    }
  }

  /** A v, three numbers with dots between them, and anything behind. */
  ghost predicate VersionTag(tag: string, a: string, b: string, c: string, rest: string) {
    Decimal(a) && Decimal(b) && Decimal(c) && tag == "v" + (a + "." + (b + "." + (c + rest)))
  }

  /** The plain version tags are of that form. */
  lemma LikeVersionIff(tag: string)
    ensures LikeVersion(tag) <==> exists a, b, c, rest :: VersionTag(tag, a, b, c, rest)
  {
    if LikeVersion(tag) {
      LikeVersionWritten(tag);
    }
    if a, b, c, rest :| VersionTag(tag, a, b, c, rest) {
      LikeVersionReads(a, b, c, rest);
    }
  }

  lemma FirstNumber(s: string) returns (d: string)
    requires NumberDot(s)
    ensures Decimal(d) && s == d + "." + AfterDot(s)
  {
    DigitsRun(s);
    d := s[..DigitsOf(s)];
  }

  lemma LastNumber(u: string) returns (c: string, rest: string)
    requires DigitsOf(u) > 0
    ensures Decimal(c) && u == c + rest
  {
    DigitsRun(u);
    c, rest := u[..DigitsOf(u)], u[DigitsOf(u)..];
  }

  lemma LikeVersionWritten(tag: string)
    requires LikeVersion(tag)
    ensures exists a, b, c, rest :: VersionTag(tag, a, b, c, rest)
  {
    var a := FirstNumber(tag[1..]);
    var b := FirstNumber(AfterDot(tag[1..]));
    var u := AfterDot(AfterDot(tag[1..]));
    var c, rest := LastNumber(u);
    Behind(tag, a, b, u);
    assert VersionTag(tag, a, b, c, rest);
  }

  lemma Behind(tag: string, a: string, b: string, u: string)
    requires tag != [] && tag[0] == 'v' && tag[1..] == a + "." + (b + "." + u)
    ensures tag == "v" + (a + "." + (b + "." + u))
  {
    assert tag == [tag[0]] + tag[1..];
  }

  lemma NumberThenDot(d: string, rest: string)
    requires Decimal(d)
    ensures NumberDot(d + "." + rest) && AfterDot(d + "." + rest) == rest
  {
    NumberDotIff(d + "." + rest);
  }

  lemma NumberThenRest(c: string, rest: string)
    requires Decimal(c)
    ensures DigitsOf(c + rest) > 0
  {
    assert (c + rest)[0] == c[0];
  }

  lemma LikeVersionReads(a: string, b: string, c: string, rest: string)
    requires Decimal(a) && Decimal(b) && Decimal(c)
    ensures LikeVersion("v" + (a + "." + (b + "." + (c + rest))))
  {
    var u := c + rest;
    var s := a + "." + (b + "." + u);
    NumberThenDot(a, b + "." + u);
    NumberThenDot(b, u);
    NumberThenRest(c, rest);
    assert ("v" + s)[1..] == s;
  }
}
