/** Version ordering: the Pod artifact comparison and the release updater's own one. */
module Versions {
  import opened Common

  // ---------------------------------------------------------------- lexicographic comparison

  /** A three-way comparison that orders all values. */
  ghost predicate Orders<T(!new)>(cmp: (T, T) -> int) {
    && (forall x, y :: -1 <= cmp(x, y) <= 1)
    && (forall x, y :: cmp(x, y) == 0 <==> x == y)
    && (forall x, y :: cmp(x, y) == -cmp(y, x))
    && (forall x, y, z :: cmp(x, y) < 0 && cmp(y, z) < 0 ==> cmp(x, z) < 0)
  }

  /** How Python compares two tuples, or two strings: the first difference decides, then the length. */
  function Lexical<T>(cmp: (T, T) -> int, a: seq<T>, b: seq<T>): int {
    if a == [] then if b == [] then 0 else -1
    else if b == [] then 1
    else if cmp(a[0], b[0]) != 0 then cmp(a[0], b[0])
    else Lexical(cmp, a[1..], b[1..])
  }

  /** `a` comes first: at the first difference it has the smaller element, or it ends there. */
  ghost predicate FirstDifference<T(!new)>(cmp: (T, T) -> int, a: seq<T>, b: seq<T>, k: nat) {
    && k <= |a| && k <= |b| && a[..k] == b[..k]
    && ((k == |a| && k < |b|) || (k < |a| && k < |b| && cmp(a[k], b[k]) < 0))
  }

  lemma {:induction false} LexicalMeaning<T(!new)>(cmp: (T, T) -> int, a: seq<T>, b: seq<T>)
    requires Orders(cmp)
    ensures -1 <= Lexical(cmp, a, b) <= 1
    ensures Lexical(cmp, a, b) == 0 <==> a == b
    ensures Lexical(cmp, a, b) == -Lexical(cmp, b, a)
    ensures Lexical(cmp, a, b) < 0 <==> exists k: nat :: FirstDifference(cmp, a, b, k)
  {
    if a != [] && b != [] {
      LexicalMeaning(cmp, a[1..], b[1..]);
      assert a == [a[0]] + a[1..] && b == [b[0]] + b[1..];
      assert cmp(a[0], b[0]) == -cmp(b[0], a[0]);
      if k: nat :| FirstDifference(cmp, a, b, k) {
        if k > 0 {
          assert a[..k][0] == b[..k][0] && a[1..][..k - 1] == a[..k][1..] == b[..k][1..] == b[1..][..k - 1];
          assert FirstDifference(cmp, a[1..], b[1..], k - 1);
        }
      }
      if k: nat :| cmp(a[0], b[0]) == 0 && FirstDifference(cmp, a[1..], b[1..], k) {
        assert a[..k + 1] == [a[0]] + a[1..][..k] && b[..k + 1] == [b[0]] + b[1..][..k];
        assert FirstDifference(cmp, a, b, k + 1);
      }
      if cmp(a[0], b[0]) < 0 {
        assert FirstDifference(cmp, a, b, 0);
      }
    } else if a == [] && b != [] {
      assert FirstDifference(cmp, a, b, 0);
    }
  }

  lemma {:induction false} LexicalTransitive<T(!new)>(cmp: (T, T) -> int, a: seq<T>, b: seq<T>, c: seq<T>)
    requires Orders(cmp) && Lexical(cmp, a, b) < 0 && Lexical(cmp, b, c) < 0
    ensures Lexical(cmp, a, c) < 0
  {
    if a != [] && b != [] && c != [] {
      assert cmp(a[0], b[0]) <= 0 && cmp(b[0], c[0]) <= 0;
      if cmp(a[0], b[0]) == 0 && cmp(b[0], c[0]) == 0 {
        LexicalTransitive(cmp, a[1..], b[1..], c[1..]);
      }
    }
  }

  lemma LexicalOrders<T(!new)>(cmp: (T, T) -> int)
    requires Orders(cmp)
    ensures Orders((a, b) => Lexical(cmp, a, b))
  {
    forall a, b {
      LexicalMeaning(cmp, a, b);
    }
    forall a, b, c | Lexical(cmp, a, b) < 0 && Lexical(cmp, b, c) < 0
      ensures Lexical(cmp, a, c) < 0
    {
      LexicalTransitive(cmp, a, b, c);
    }
  }

  function Sign(n: int): int {
    if n < 0 then -1 else if n > 0 then 1 else 0
  }

  function CompareChars(a: char, b: char): int {
    Sign(a as int - b as int)
  }

  function CompareText(a: string, b: string): int {
    Lexical(CompareChars, a, b)
  }

  lemma TextOrders()
    ensures Orders(CompareText)
  {
    assert Orders(CompareChars);
    LexicalOrders(CompareChars);
    forall a, b
      ensures CompareText(a, b) == ((x, y) => Lexical(CompareChars, x, y))(a, b)
    {
    }
  }

  // ---------------------------------------------------------------- parsing

  predicate Digit(c: char) {
    '0' <= c <= '9'
  }

  predicate Numeral(s: string) {
    s != [] && forall i | 0 <= i < |s| :: Digit(s[i])
  }

  function Number(s: string): nat
    requires forall i | 0 <= i < |s| :: Digit(s[i])
  {
    if s == [] then 0
    else
      assert Digit(s[|s| - 1]);
      10 * Number(s[..|s| - 1]) + (s[|s| - 1] as int - '0' as int)
  }

  predicate IdentifierChar(c: char) {
    Digit(c) || 'a' <= c <= 'z' || 'A' <= c <= 'Z' || c == '.' || c == '-'
  }

  predicate PrereleaseText(s: string) {
    s != [] && forall i | 0 <= i < |s| :: IdentifierChar(s[i])
  }

  function Lower(c: char): char {
    if 'A' <= c <= 'Z' then (c as int + 32) as char else c
  }

  function LowerAll(s: string): string {
    seq(|s|, i requires 0 <= i < |s| => Lower(s[i]))
  }

  /** Python's s.split(sep) for a one-character separator. */
  function Split(s: string, sep: char): (parts: seq<string>)
    ensures parts != []
  {
    if s == [] then [[]]
    else
      var rest := Split(s[1..], sep);
      if s[0] == sep then [[]] + rest else [[s[0]] + rest[0]] + rest[1..]
  }

  /** Position of the first hyphen, or the length. */
  function Hyphen(s: string): (n: nat)
    ensures n <= |s|
  {
    if s == [] || s[0] == '-' then 0 else 1 + Hyphen(s[1..])
  }

  /** An entry of the comparison tuple: a tag, and either a number or a text. */
  datatype Value = Num(n: nat) | Str(s: string)
  datatype Piece = Piece(tag: nat, value: Value)

  datatype Version = Version(major: nat, minor: nat, patch: nat, suffix: seq<Piece>)

  function PieceOf(identifier: string): Piece {
    if Numeral(identifier) then Piece(0, Num(Number(identifier))) else Piece(1, Str(LowerAll(identifier)))
  }

  function Pieces(identifiers: seq<string>): (pieces: seq<Piece>)
    ensures |pieces| == |identifiers|
  {
    seq(|identifiers|, i requires 0 <= i < |identifiers| => PieceOf(identifiers[i]))
  }

  const RELEASE := [Piece(2, Str(""))]

  predicate CoreNumber(s: string) {
    Numeral(s) && (s[0] == '0' ==> |s| == 1)
  }

  /** The version a string denotes, or None where the source raises. */
  function Semver(text: string): Option<Version> {
    var h := Hyphen(text);
    var core := Split(text[..h], '.');
    if |core| != 3 || !CoreNumber(core[0]) || !CoreNumber(core[1]) || !CoreNumber(core[2]) then None
    else if h == |text| then Some(Version(Number(core[0]), Number(core[1]), Number(core[2]), RELEASE))
    else
      var pre := text[h + 1..];
      if !PrereleaseText(pre) then None
      else Some(Version(Number(core[0]), Number(core[1]), Number(core[2]), Pieces(Split(pre, '.'))))
  }

  // ---------------------------------------------------------------- comparing

  /** Python would raise a TypeError here: the tags agree, the values differ, and one is a number and one a text. */
  predicate Mixed(a: Piece, b: Piece) {
    a.tag == b.tag && a.value.Num? != b.value.Num?
  }

  function CompareValues(a: Value, b: Value): int {
    if a.Num? && b.Num? then Sign(a.n - b.n)
    else if a.Str? && b.Str? then CompareText(a.s, b.s)
    else if a.Num? then -1 else 1
  }

  function ComparePieces(a: Piece, b: Piece): int {
    if a.tag != b.tag then Sign(a.tag - b.tag) else CompareValues(a.value, b.value)
  }

  function Compare(a: Version, b: Version): int {
    if a.major != b.major then Sign(a.major - b.major)
    else if a.minor != b.minor then Sign(a.minor - b.minor)
    else if a.patch != b.patch then Sign(a.patch - b.patch)
    else Lexical(ComparePieces, a.suffix, b.suffix)
  }

  /** compare_versions; None where it raises. */
  function CompareVersions(left: string, right: string): Option<int> {
    if Semver(left).Some? && Semver(right).Some? then Some(Compare(Semver(left).value, Semver(right).value)) else None
  }

  lemma PiecesOrder()
    ensures Orders(ComparePieces)
  {
    TextOrders();
    forall a, b
      ensures -1 <= ComparePieces(a, b) <= 1 && (ComparePieces(a, b) == 0 <==> a == b)
        && ComparePieces(a, b) == -ComparePieces(b, a)
    {
      if a.value.Str? && b.value.Str? {
        assert CompareText(a.value.s, b.value.s) == -CompareText(b.value.s, a.value.s);
      }
    }
    forall a, b, c | ComparePieces(a, b) < 0 && ComparePieces(b, c) < 0
      ensures ComparePieces(a, c) < 0
    {
      if a.value.Str? && b.value.Str? && c.value.Str? && a.tag == b.tag == c.tag {
        assert CompareText(a.value.s, b.value.s) < 0 && CompareText(b.value.s, c.value.s) < 0;
      }
    }
  }

  /** The comparison is a total order on parsed versions. */
  lemma CompareOrders()
    ensures Orders(Compare)
  {
    PiecesOrder();
    LexicalOrders(ComparePieces);
    var suffix := (x, y) => Lexical(ComparePieces, x, y);
    assert forall x, y :: suffix(x, y) == Lexical(ComparePieces, x, y);
    forall a, b
      ensures -1 <= Compare(a, b) <= 1 && (Compare(a, b) == 0 <==> a == b) && Compare(a, b) == -Compare(b, a)
    {
      assert suffix(a.suffix, b.suffix) == -suffix(b.suffix, a.suffix);
    }
    forall a, b, c | Compare(a, b) < 0 && Compare(b, c) < 0
      ensures Compare(a, c) < 0
    {
      if (a.major, a.minor, a.patch) == (b.major, b.minor, b.patch) == (c.major, c.minor, c.patch) {
        assert suffix(a.suffix, b.suffix) < 0 && suffix(b.suffix, c.suffix) < 0;
      }
    }
  }

  /** On strings: every pair of valid versions compares, and the comparison is a total preorder. */
  lemma CompareVersionsTotal(a: string, b: string, c: string)
    requires Semver(a).Some? && Semver(b).Some? && Semver(c).Some?
    ensures CompareVersions(a, b).Some? && CompareVersions(a, b).value == -CompareVersions(b, a).value
    ensures CompareVersions(a, a) == Some(0)
    ensures CompareVersions(a, b).value <= 0 && CompareVersions(b, c).value <= 0 ==> CompareVersions(a, c).value <= 0
    ensures CompareVersions(a, b) == Some(0) ==> CompareVersions(a, c) == CompareVersions(b, c)
  {
    CompareOrders();
    var x, y, z := Semver(a).value, Semver(b).value, Semver(c).value;
    assert Compare(x, y) == -Compare(y, x) && (Compare(x, y) == 0 <==> x == y) && (Compare(y, z) == 0 <==> y == z);
    if Compare(x, y) < 0 && Compare(y, z) < 0 {
      assert Compare(x, z) < 0;
    }
  }

  /** The suffix of a valid version: the release marker, or tagged identifiers. */
  ghost predicate SuffixOk(suffix: seq<Piece>) {
    suffix == RELEASE || forall p :: p in suffix ==> (p.tag == 0 && p.value.Num?) || (p.tag == 1 && p.value.Str?)
  }

  lemma SemverSuffix(text: string)
    requires Semver(text).Some?
    ensures SuffixOk(Semver(text).value.suffix) && Semver(text).value.suffix != []
  {
  }

  /** No comparison of valid versions ever sets a number against a text. */
  lemma NeverMixed(left: string, right: string, p: Piece, q: Piece)
    requires Semver(left).Some? && Semver(right).Some? && p in Semver(left).value.suffix
      && q in Semver(right).value.suffix
    ensures !Mixed(p, q)
  {
    SemverSuffix(left);
    SemverSuffix(right);
  }

  // ---------------------------------------------------------------- section 11 of Semantic Versioning 2.0.0

  /** Precedence of single identifiers: numbers numerically, texts in ASCII order, numbers below texts. */
  ghost predicate IdentifierBelow(a: Value, b: Value) {
    match (a, b)
    case (Num(m), Num(n)) => m < n
    case (Num(_), Str(_)) => true
    case (Str(_), Num(_)) => false
    case (Str(s), Str(t)) => exists k: nat :: k <= |s| && k <= |t| && s[..k] == t[..k]
                               && ((k == |s| && k < |t|) || (k < |s| && k < |t| && s[k] < t[k]))
  }

  /** Precedence of pre-release identifier lists. */
  ghost predicate PrereleaseBelow(a: seq<Value>, b: seq<Value>) {
    exists k: nat :: k <= |a| && k <= |b| && a[..k] == b[..k]
      && ((k == |a| && k < |b|) || (k < |a| && k < |b| && IdentifierBelow(a[k], b[k])))
  }

  function Identifiers(v: Version): seq<Value> {
    seq(|v.suffix|, i requires 0 <= i < |v.suffix| => v.suffix[i].value)
  }

  /** Precedence of versions, after folding the case of identifiers. */
  ghost predicate Precedes(a: Version, b: Version) {
    a.major < b.major || (a.major == b.major
      && (a.minor < b.minor || (a.minor == b.minor
        && (a.patch < b.patch || (a.patch == b.patch
          && ((a.suffix != RELEASE && b.suffix == RELEASE)
              || (a.suffix != RELEASE && b.suffix != RELEASE && PrereleaseBelow(Identifiers(a), Identifiers(b)))))))))
  }

  lemma PieceBelow(a: Piece, b: Piece)
    requires (a.tag == 0 && a.value.Num?) || (a.tag == 1 && a.value.Str?)
    requires (b.tag == 0 && b.value.Num?) || (b.tag == 1 && b.value.Str?)
    ensures ComparePieces(a, b) < 0 <==> IdentifierBelow(a.value, b.value)
  {
    if a.value.Str? && b.value.Str? {
      assert Orders(CompareChars);
      var s, t := a.value.s, b.value.s;
      LexicalMeaning(CompareChars, s, t);
      if k: nat :| FirstDifference(CompareChars, s, t, k) {
        assert s[..k] == t[..k];
      }
      if k: nat :|
        k <= |s| && k <= |t| && s[..k] == t[..k]
        && ((k == |s| && k < |t|) || (k < |s| && k < |t| && s[k] < t[k])) {
        assert FirstDifference(CompareChars, s, t, k);
      }
    }
  }

  lemma SamePrefixes(a: Version, b: Version, k: nat)
    requires SuffixOk(a.suffix) && SuffixOk(b.suffix) && a.suffix != RELEASE && b.suffix != RELEASE
    requires k <= |a.suffix| && k <= |b.suffix|
    ensures a.suffix[..k] == b.suffix[..k] <==> Identifiers(a)[..k] == Identifiers(b)[..k]
  {
    var x, y, u, v := a.suffix, b.suffix, Identifiers(a), Identifiers(b);
    if u[..k] == v[..k] {
      forall i | 0 <= i < k
        ensures x[i] == y[i]
      {
        assert u[..k][i] == v[..k][i] && x[i] in x && y[i] in y;
      }
    }
    if x[..k] == y[..k] {
      assert forall i :: 0 <= i < k ==> x[..k][i] == y[..k][i];
    }
  }

  /** At every place the entries and the identifiers agree on what is equal and what is below. */
  lemma AlikeAt(a: Version, b: Version, k: nat)
    requires SuffixOk(a.suffix) && SuffixOk(b.suffix) && a.suffix != RELEASE && b.suffix != RELEASE
    requires k <= |a.suffix| && k <= |b.suffix|
    ensures a.suffix[..k] == b.suffix[..k] <==> Identifiers(a)[..k] == Identifiers(b)[..k]
    ensures k < |a.suffix| && k < |b.suffix| ==>
      (ComparePieces(a.suffix[k], b.suffix[k]) < 0 <==> IdentifierBelow(Identifiers(a)[k], Identifiers(b)[k]))
  {
    SamePrefixes(a, b, k);
    if k < |a.suffix| && k < |b.suffix| {
      assert a.suffix[k] in a.suffix && b.suffix[k] in b.suffix;
      PieceBelow(a.suffix[k], b.suffix[k]);
    }
  }

  lemma DifferenceBelow(a: Version, b: Version, k: nat)
    requires SuffixOk(a.suffix) && SuffixOk(b.suffix) && a.suffix != RELEASE && b.suffix != RELEASE
    requires FirstDifference(ComparePieces, a.suffix, b.suffix, k)
    ensures PrereleaseBelow(Identifiers(a), Identifiers(b))
  {
    AlikeAt(a, b, k);
    assert Identifiers(a)[..k] == Identifiers(b)[..k];
  }

  lemma BelowDifference(a: Version, b: Version) returns (k: nat)
    requires SuffixOk(a.suffix) && SuffixOk(b.suffix) && a.suffix != RELEASE && b.suffix != RELEASE
    requires PrereleaseBelow(Identifiers(a), Identifiers(b))
    ensures FirstDifference(ComparePieces, a.suffix, b.suffix, k)
  {
    var u, v := Identifiers(a), Identifiers(b);
    k :|
      k <= |u| && k <= |v| && u[..k] == v[..k]
      && ((k == |u| && k < |v|) || (k < |u| && k < |v| && IdentifierBelow(u[k], v[k])));
    AlikeAt(a, b, k);
  }

  lemma SuffixBelow(a: Version, b: Version)
    requires SuffixOk(a.suffix) && SuffixOk(b.suffix) && a.suffix != RELEASE && b.suffix != RELEASE
    ensures Lexical(ComparePieces, a.suffix, b.suffix) < 0 <==> PrereleaseBelow(Identifiers(a), Identifiers(b))
  {
    PiecesOrder();
    LexicalMeaning(ComparePieces, a.suffix, b.suffix);
    if k: nat :| FirstDifference(ComparePieces, a.suffix, b.suffix, k) {
      DifferenceBelow(a, b, k);
    }
    if PrereleaseBelow(Identifiers(a), Identifiers(b)) {
      var k := BelowDifference(a, b);
    }
  }

  /** The comparison is the precedence of section 11, with letter case folded. */
  lemma AgreesWithSection11(left: string, right: string)
    requires Semver(left).Some? && Semver(right).Some?
    ensures CompareVersions(left, right).value < 0 <==> Precedes(Semver(left).value, Semver(right).value)
  {
    var a, b := Semver(left).value, Semver(right).value;
    SemverSuffix(left);
    SemverSuffix(right);
    if a.suffix != RELEASE && b.suffix != RELEASE {
      SuffixBelow(a, b);
    } else if a.suffix == RELEASE && b.suffix == RELEASE {
      PiecesOrder();
      LexicalMeaning(ComparePieces, a.suffix, b.suffix);
    } else {
      assert a.suffix[0].tag != b.suffix[0].tag by {
        assert a.suffix[0] in a.suffix && b.suffix[0] in b.suffix;
      }
    }
  }

  // ---------------------------------------------------------------- facts about splitting

  function Join(parts: seq<string>, sep: char): string {
    if parts == [] then []
    else if |parts| == 1 then parts[0]
    else parts[0] + [sep] + Join(parts[1..], sep)
  }

  lemma {:induction false} JoinSplit(s: string, sep: char)
    ensures Join(Split(s, sep), sep) == s
  {
    if s != [] {
      var rest := Split(s[1..], sep);
      JoinSplit(s[1..], sep);
      if s[0] == sep {
        assert ([[]] + rest)[1..] == rest;
      } else {
        var parts := [[s[0]] + rest[0]] + rest[1..];
        assert parts[1..] == rest[1..];
        assert s == [s[0]] + s[1..];
      }
    }
  }

  lemma {:induction false} PartsFree(s: string, sep: char)
    ensures forall i :: 0 <= i < |Split(s, sep)| ==> sep !in Split(s, sep)[i]
  {
    if s != [] {
      PartsFree(s[1..], sep);
    }
  }

  /** If every part is made of such characters, so is the text between the separators. */
  lemma {:induction false} CharsOfParts(s: string, sep: char, ok: char -> bool)
    requires forall i, j :: 0 <= i < |Split(s, sep)| && 0 <= j < |Split(s, sep)[i]| ==> ok(Split(s, sep)[i][j])
    ensures forall i :: 0 <= i < |s| ==> s[i] == sep || ok(s[i])
  {
    if s != [] {
      var rest := Split(s[1..], sep);
      forall i, j | 0 <= i < |rest| && 0 <= j < |rest[i]|
        ensures ok(rest[i][j])
      {
        if s[0] == sep {
          assert Split(s, sep)[i + 1] == rest[i];
        } else if i == 0 {
          assert Split(s, sep)[0][j + 1] == rest[0][j];
        } else {
          assert Split(s, sep)[i] == rest[i];
        }
      }
      CharsOfParts(s[1..], sep, ok);
      if s[0] != sep {
        assert Split(s, sep)[0][0] == s[0];
      }
    }
  }

  lemma {:induction false} SplitOne(s: string, sep: char)
    requires sep !in s
    ensures Split(s, sep) == [s]
  {
    if s != [] {
      SplitOne(s[1..], sep);
      assert s == [s[0]] + s[1..];
    }
  }

  lemma {:induction false} SplitMore(head: string, tail: string, sep: char)
    requires sep !in head
    ensures Split(head + [sep] + tail, sep) == [head] + Split(tail, sep)
    decreases |head|
  {
    var s := head + [sep] + tail;
    if head == [] {
      assert s[1..] == tail;
    } else {
      assert s[1..] == head[1..] + [sep] + tail;
      SplitMore(head[1..], tail, sep);
      assert head == [head[0]] + head[1..];
    }
  }

  lemma {:induction false} HyphenAt(s: string, n: nat)
    requires n <= |s| && (forall i :: 0 <= i < n ==> s[i] != '-') && (n < |s| ==> s[n] == '-')
    ensures Hyphen(s) == n
    decreases n
  {
    if n > 0 {
      HyphenAt(s[1..], n - 1);
    }
  }

  /** A version without a pre-release, read digit by digit. */
  lemma PlainVersion(a: char, b: char, c: char)
    requires Digit(a) && Digit(b) && Digit(c)
    ensures Semver([a, '.', b, '.', c])
         == Some(Version(a as int - '0' as int, b as int - '0' as int, c as int - '0' as int, RELEASE))
  {
    var s := [a, '.', b, '.', c];
    HyphenAt(s, 5);
    assert s[..5] == s;
    CoreParts(a, b, c);
  }

  lemma CoreParts(a: char, b: char, c: char)
    requires Digit(a) && Digit(b) && Digit(c)
    ensures Split([a, '.', b, '.', c], '.') == [[a], [b], [c]]
    ensures CoreNumber([a]) && Number([a]) == a as int - '0' as int
  {
    SplitOne([c], '.');
    SplitMore([b], [c], '.');
    assert [b] + ['.'] + [c] == [b, '.', c];
    SplitMore([a], [b, '.', c], '.');
    assert [a] + ['.'] + [b, '.', c] == [a, '.', b, '.', c];
    assert [[a]] + ([[b]] + [[c]]) == [[a], [b], [c]];
    assert [a][..0] == [];
  }
}
