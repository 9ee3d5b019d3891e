/** When the updater's order of versions agrees with the Pod comparison, on strings. */
module VersionOrders {
  import opened Common
  import opened Versions
  import opened Updater

  /** The pre-release text of a version string. */
  function Pre(text: string): string {
    if Hyphen(text) == |text| then "" else text[Hyphen(text) + 1..]
  }

  /** The two orders give the same answer to "is this one newer?". */
  ghost predicate Agree(a: string, b: string)
    requires Semver(a).Some? && Semver(b).Some?
  {
    NewerText(a, b) <==> CompareVersions(a, b).value > 0
  }

  // ---------------------------------------------------------------- a valid version is read alike by both

  predicate Plain(c: char) {
    Digit(c) || IdentifierChar(c)
  }

  lemma PlainText(text: string)
    requires Semver(text).Some?
    ensures text != [] && (Digit(text[0]) || text[0] == '.') && forall i :: 0 <= i < |text| ==> Plain(text[i])
  {
    var h := Hyphen(text);
    CharsOfParts(text[..h], '.', Digit);
    assert forall i :: 0 <= i < h ==> text[..h][i] == text[i];
    HyphenThere(text);
    assert forall i :: h < i < |text| ==> text[h + 1..][i - h - 1] == text[i];
    assert Split("", '.') == [""];
  }

  lemma {:induction false} HyphenThere(s: string)
    ensures Hyphen(s) < |s| ==> s[Hyphen(s)] == '-'
  {
    if s != [] && s[0] != '-' {
      HyphenThere(s[1..]);
    }
  }

  lemma SameReading(text: string)
    requires Semver(text).Some?
    ensures var v := Semver(text).value; Parse(text) == Some(Release(v.major, v.minor, v.patch, Pre(text)))
  {
    PlainText(text);
    assert TrimLeft(text) == text && TrimRight(text) == text;
  }

  lemma SuffixOf(text: string)
    requires Semver(text).Some?
    ensures Pre(text) == "" <==> Hyphen(text) == |text|
    ensures Semver(text).value.suffix == if Pre(text) == "" then RELEASE else Pieces(Split(Pre(text), '.'))
  {
  }

  // ---------------------------------------------------------------- texts that share their first identifiers

  lemma {:induction false} SharedStart(p: string, x: string, y: string)
    ensures CompareText(p + x, p + y) == CompareText(x, y)
    decreases |p|
  {
    if p == [] {
      assert p + x == x && p + y == y;
    } else {
      assert (p + x)[1..] == p[1..] + x && (p + y)[1..] == p[1..] + y;
      SharedStart(p[1..], x, y);
    }
  }

  /** Two different identifiers decide, together with the dot behind each of them, if there is one. */
  lemma {:induction false} IdentifierDecides(x: string, y: string, more: string, rest: string)
    requires x != y && '.' !in x && '.' !in y
    requires (more == "" || more[0] == '.') && (rest == "" || rest[0] == '.')
    ensures CompareText(x + more, y + rest) == CompareText(x + Dot(more != ""), y + Dot(rest != ""))
    decreases |x|
  {
    if x != [] && y != [] {
      assert (x + more)[1..] == x[1..] + more && (y + rest)[1..] == y[1..] + rest;
      assert (x + Dot(more != ""))[1..] == x[1..] + Dot(more != "")
        && (y + Dot(rest != ""))[1..] == y[1..] + Dot(rest != "");
      if x[0] == y[0] {
        assert x == [x[0]] + x[1..] && y == [y[0]] + y[1..];
        IdentifierDecides(x[1..], y[1..], more, rest);
      }
    } else if x == [] {
      assert y[0] in y && x + more == more && x + Dot(more != "") == Dot(more != "");
    } else {
      assert x[0] in x && y + rest == rest && y + Dot(rest != "") == Dot(rest != "");
    }
  }

  function Dot(more: bool): string {
    if more then "." else ""
  }

  /** The text of some identifiers from position k on, and what stands behind the first of them. */
  function Behind(parts: seq<string>, k: nat): string
    requires k < |parts|
  {
    if k + 1 == |parts| then "" else ['.'] + Join(parts[k + 1..], '.')
  }

  lemma {:induction false} JoinAt(parts: seq<string>, k: nat)
    requires k < |parts|
    ensures Join(parts, '.') == Front(parts, k) + (parts[k] + Behind(parts, k))
    decreases k
  {
    if k > 0 {
      JoinAt(parts[1..], k - 1);
      assert parts[1..][k..] == parts[k + 1..];
      assert Behind(parts[1..], k - 1) == Behind(parts, k);
      assert parts[0] + ['.'] + (Front(parts[1..], k - 1) + (parts[k] + Behind(parts, k)))
          == (parts[0] + ['.'] + Front(parts[1..], k - 1)) + (parts[k] + Behind(parts, k));
    } else {
      assert Front(parts, 0) + (parts[0] + Behind(parts, 0)) == parts[0] + Behind(parts, 0);
    }
  }

  function Front(parts: seq<string>, k: nat): string
    requires k < |parts|
  {
    if k == 0 then "" else parts[0] + ['.'] + Front(parts[1..], k - 1)
  }

  lemma {:induction false} SameFront(a: seq<string>, b: seq<string>, k: nat)
    requires k < |a| && k < |b| && a[..k] == b[..k]
    ensures Front(a, k) == Front(b, k)
    decreases k
  {
    if k > 0 {
      assert a[0] == a[..k][0] == b[..k][0] == b[0];
      assert a[1..][..k - 1] == a[..k][1..] == b[..k][1..] == b[1..][..k - 1];
      SameFront(a[1..], b[1..], k - 1);
    }
  }

  /** The first position at which the identifiers differ, or the end of the shorter list. */
  function FirstDifferent(a: seq<string>, b: seq<string>): (k: nat)
    ensures k <= |a| && k <= |b|
    ensures k < |a| && k < |b| ==> a[k] != b[k]
  {
    if a == [] || b == [] || a[0] != b[0] then 0 else 1 + FirstDifferent(a[1..], b[1..])
  }

  lemma {:induction false} SameBefore(a: seq<string>, b: seq<string>)
    ensures a[..FirstDifferent(a, b)] == b[..FirstDifferent(a, b)]
  {
    if a != [] && b != [] && a[0] == b[0] {
      SameBefore(a[1..], b[1..]);
      var k := FirstDifferent(a[1..], b[1..]);
      assert a[..k + 1] == [a[0]] + a[1..][..k] && b[..k + 1] == [b[0]] + b[1..][..k];
    }
  }

  /** The raw texts are decided at the first identifier in which they differ. */
  lemma TextDecidedAt(a: seq<string>, b: seq<string>, k: nat)
    requires k < |a| && k < |b| && a[..k] == b[..k] && a[k] != b[k]
    requires '.' !in a[k] && '.' !in b[k]
    ensures CompareText(Join(a, '.'), Join(b, '.')) == CompareText(a[k] + Dot(k + 1 < |a|), b[k] + Dot(k + 1 < |b|))
  {
    JoinAt(a, k);
    JoinAt(b, k);
    SameFront(a, b, k);
    SharedStart(Front(a, k), a[k] + Behind(a, k), b[k] + Behind(b, k));
    IdentifierDecides(a[k], b[k], Behind(a, k), Behind(b, k));
  }

  lemma {:induction false} JoinMore(a: seq<string>, b: seq<string>)
    requires a != [] && |a| < |b| && a == b[..|a|]
    ensures |Join(a, '.')| < |Join(b, '.')| && Join(a, '.') == Join(b, '.')[..|Join(a, '.')|]
    ensures Join(b, '.')[|Join(a, '.')|] == '.'
    decreases |a|
  {
    assert a[0] == b[0];
    if |a| > 1 {
      assert a[1..] == b[1..][..|a| - 1];
      JoinMore(a[1..], b[1..]);
    }
  }

  lemma {:induction false} PrefixIsLess(x: string, y: string)
    requires |x| < |y| && x == y[..|x|]
    ensures CompareText(x, y) < 0 && CompareText(y, x) > 0
    decreases |x|
  {
    if x != [] {
      assert x[0] == y[0] && x[1..] == y[1..][..|x| - 1];
      PrefixIsLess(x[1..], y[1..]);
    }
  }

  // ---------------------------------------------------------------- the comparison tuples

  lemma {:induction false} PiecesDecidedAt(a: seq<string>, b: seq<string>, k: nat)
    requires k <= |a| && k <= |b| && a[..k] == b[..k]
    ensures Lexical(ComparePieces, Pieces(a), Pieces(b)) == Lexical(ComparePieces, Pieces(a[k..]), Pieces(b[k..]))
    decreases k
  {
    if k > 0 {
      assert a[0] == a[..k][0] == b[..k][0] == b[0];
      assert a[1..][..k - 1] == a[..k][1..] == b[..k][1..] == b[1..][..k - 1];
      assert Pieces(a)[1..] == Pieces(a[1..]) && Pieces(b)[1..] == Pieces(b[1..]);
      PiecesOrder();
      assert ComparePieces(Pieces(a)[0], Pieces(b)[0]) == 0;
      PiecesDecidedAt(a[1..], b[1..], k - 1);
      assert a[1..][k - 1..] == a[k..] && b[1..][k - 1..] == b[k..];
    } else {
      assert a[k..] == a && b[k..] == b;
    }
  }

  /** How the first identifiers that differ are ordered by their raw text, each with the dot behind it, if there is
      one. */
  predicate LaterText(a: seq<string>, b: seq<string>, k: nat)
    requires k < |a| && k < |b|
  {
    CompareText(a[k] + Dot(k + 1 < |a|), b[k] + Dot(k + 1 < |b|)) > 0
  }

  /** How the identifiers from there on are ordered as numbers and folded texts. */
  predicate LaterPieces(a: seq<string>, b: seq<string>, k: nat)
    requires k < |a| && k < |b|
  {
    Lexical(ComparePieces, Pieces(a[k..]), Pieces(b[k..])) > 0
  }

  /** The condition of agreement: only two pre-releases of one version can disagree, and only at the first identifier in
      which they differ. */
  predicate AgreeAt(a: string, b: string)
    requires Semver(a).Some? && Semver(b).Some?
  {
    var x, y := Semver(a).value, Semver(b).value;
    var s, t := Split(Pre(a), '.'), Split(Pre(b), '.');
    var k := FirstDifferent(s, t);
    || (x.major, x.minor, x.patch) != (y.major, y.minor, y.patch)
    || Pre(a) == "" || Pre(b) == ""
    || k == |s| || k == |t|
    || (LaterText(s, t, k) <==> LaterPieces(s, t, k))
  }

  lemma ReleaseAbovePieces(parts: seq<string>)
    requires parts != []
    ensures Lexical(ComparePieces, Pieces(parts), RELEASE) < 0 && Lexical(ComparePieces, RELEASE, Pieces(parts)) > 0
  {
  }

  lemma SamePieces(x: seq<Piece>)
    ensures Lexical(ComparePieces, x, x) == 0
  {
    PiecesOrder();
    LexicalMeaning(ComparePieces, x, x);
  }

  /** Two pre-releases of one version. */
  lemma PreReleasesAgreeIff(p: string, q: string)
    ensures var s, t := Split(p, '.'), Split(q, '.'); var k := FirstDifferent(s, t);
      (CompareText(p, q) > 0 <==> Lexical(ComparePieces, Pieces(s), Pieces(t)) > 0) <==>
      k == |s| || k == |t| || (LaterText(s, t, k) <==> LaterPieces(s, t, k))
  {
    var s, t := Split(p, '.'), Split(q, '.');
    var k := FirstDifferent(s, t);
    JoinSplit(p, '.');
    JoinSplit(q, '.');
    PartsFree(p, '.');
    PartsFree(q, '.');
    SameBefore(s, t);
    PiecesDecidedAt(s, t, k);
    if k < |s| && k < |t| {
      TextDecidedAt(s, t, k);
    } else {
      assert s[..|s|] == s && t[..|t|] == t;
      if |s| == |t| {
        SameText(p);
      } else if k == |s| {
        JoinMore(s, t);
        PrefixIsLess(p, q);
      } else {
        JoinMore(t, s);
        PrefixIsLess(q, p);
      }
    }
  }

  lemma {:induction false} SameText(p: string)
    ensures CompareText(p, p) == 0
  {
    if p != [] {
      SameText(p[1..]);
    }
  }

  /** For all valid versions: the two orders agree exactly under that condition. */
  lemma OrdersAgreeIff(a: string, b: string)
    requires Semver(a).Some? && Semver(b).Some?
    ensures Agree(a, b) <==> AgreeAt(a, b)
  {
    SameReading(a);
    SameReading(b);
    SuffixOf(a);
    SuffixOf(b);
    var x, y := Semver(a).value, Semver(b).value;
    if (x.major, x.minor, x.patch) == (y.major, y.minor, y.patch) {
      if Pre(a) != "" && Pre(b) != "" {
        PreReleasesAgreeIff(Pre(a), Pre(b));
      } else if Pre(a) == "" && Pre(b) == "" {
        SamePieces(RELEASE);
      } else if Pre(a) == "" {
        ReleaseAbovePieces(Split(Pre(b), '.'));
      } else {
        ReleaseAbovePieces(Split(Pre(a), '.'));
      }
    }
  }

  // ---------------------------------------------------------------- the condition for the usual kinds of identifiers

  /** Two pre-releases of one version, and the identifiers in which they first differ. */
  ghost predicate DifferAt(a: string, b: string, x: string, y: string) {
    && Semver(a).Some? && Semver(b).Some? && Pre(a) != "" && Pre(b) != ""
    && (Semver(a).value.major, Semver(a).value.minor, Semver(a).value.patch)
       == (Semver(b).value.major, Semver(b).value.minor, Semver(b).value.patch)
    && var s, t := Split(Pre(a), '.'), Split(Pre(b), '.'); var k := FirstDifferent(s, t);
       k < |s| && k < |t| && s[k] == x && t[k] == y
  }

  predicate NoHyphen(s: string) {
    forall i | 0 <= i < |s| :: s[i] > '.'
  }

  /** The dot behind an identifier decides nothing if there is no hyphen. */
  lemma {:induction false} DotDecidesNothing(x: string, y: string, m: bool, n: bool)
    requires x != y && NoHyphen(x) && NoHyphen(y)
    ensures CompareText(x + Dot(m), y + Dot(n)) == CompareText(x, y)
    decreases |x|
  {
    if x != [] && y != [] {
      assert (x + Dot(m))[1..] == x[1..] + Dot(m) && (y + Dot(n))[1..] == y[1..] + Dot(n);
      if x[0] == y[0] {
        assert x == [x[0]] + x[1..] && y == [y[0]] + y[1..];
        DotDecidesNothing(x[1..], y[1..], m, n);
      }
    } else if x == [] {
      assert x + Dot(m) == Dot(m);
    } else {
      assert y + Dot(n) == Dot(n);
    }
  }

  lemma FirstPieceDecides(a: seq<string>, b: seq<string>, k: nat)
    requires k < |a| && k < |b| && PieceOf(a[k]) != PieceOf(b[k])
    ensures LaterPieces(a, b, k) <==> ComparePieces(PieceOf(a[k]), PieceOf(b[k])) > 0
  {
    PiecesOrder();
    assert Pieces(a[k..])[0] == PieceOf(a[k]) && Pieces(b[k..])[0] == PieceOf(b[k]);
  }

  function Power10(n: nat): nat {
    if n == 0 then 1 else 10 * Power10(n - 1)
  }

  lemma {:induction false} NumberBelow(s: string)
    requires forall i | 0 <= i < |s| :: Digit(s[i])
    ensures Number(s) < Power10(|s|)
    ensures s != [] && s[0] != '0' ==> Power10(|s| - 1) <= Number(s)
  {
    if s != [] {
      assert Digit(s[|s| - 1]);
      NumberBelow(s[..|s| - 1]);
    }
  }

  lemma {:induction false} PowerGrows(m: nat, n: nat)
    requires m <= n
    ensures Power10(m) <= Power10(n)
  {
    if m < n {
      PowerGrows(m, n - 1);
    }
  }

  /** Numbers of different lengths are ordered by length, numbers of one length like their texts. */
  lemma LongerIsGreater(x: string, y: string)
    requires CoreNumber(x) && CoreNumber(y) && |x| < |y|
    ensures Number(x) < Number(y)
  {
    NumberBelow(x);
    NumberBelow(y);
    PowerGrows(|x|, |y| - 1);
  }

  lemma {:induction false} LastDecides(x: string, y: string, c: char, d: char)
    requires |x| == |y|
    ensures CompareText(x + [c], y + [d]) == if x == y then CompareChars(c, d) else CompareText(x, y)
    decreases |x|
  {
    if x == [] {
      assert x + [c] == [c] && y + [d] == [d] && [c][1..] == [d][1..] == [];
      assert Lexical(CompareChars, [c][1..], [d][1..]) == 0;
    } else {
      assert (x + [c])[1..] == x[1..] + [c] && (y + [d])[1..] == y[1..] + [d];
      LastDecides(x[1..], y[1..], c, d);
      assert x == [x[0]] + x[1..] && y == [y[0]] + y[1..];
    }
  }

  lemma {:induction false} EqualLength(x: string, y: string)
    requires |x| == |y| && (forall i | 0 <= i < |x| :: Digit(x[i]) && Digit(y[i]))
    ensures Number(x) > Number(y) <==> CompareText(x, y) > 0
    ensures Number(x) == Number(y) <==> x == y
    decreases |x|
  {
    if x != [] {
      var n := |x| - 1;
      assert Digit(x[n]) && Digit(y[n]);
      EqualLength(x[..n], y[..n]);
      LastDecides(x[..n], y[..n], x[n], y[n]);
      assert x == x[..n] + [x[n]] && y == y[..n] + [y[n]];
      SameText(x[..n]);
    }
  }

  /** Identifiers without a hyphen that the Pod comparison tells apart: the two orders of these identifiers decide. */
  lemma AgreeOnIdentifiers(a: string, b: string, x: string, y: string)
    requires DifferAt(a, b, x, y) && NoHyphen(x) && NoHyphen(y) && PieceOf(x) != PieceOf(y)
    ensures Agree(a, b) <==> (CompareText(x, y) > 0 <==> ComparePieces(PieceOf(x), PieceOf(y)) > 0)
  {
    OrdersAgreeIff(a, b);
    var s, t := Split(Pre(a), '.'), Split(Pre(b), '.');
    var k := FirstDifferent(s, t);
    DotDecidesNothing(x, y, k + 1 < |s|, k + 1 < |t|);
    FirstPieceDecides(s, t, k);
  }

  lemma NumberPieces(x: string, y: string)
    requires CoreNumber(x) && CoreNumber(y) && x != y
    ensures NoHyphen(x) && NoHyphen(y) && PieceOf(x) != PieceOf(y)
    ensures ComparePieces(PieceOf(x), PieceOf(y)) > 0 <==> if |x| == |y| then CompareText(x, y) > 0 else |x| > |y|
  {
    NumberOrder(x, y);
  }

  /** Numbers without leading zeros: the orders agree exactly if the longer one is also the later text, or none is
      longer. */
  lemma NumbersAgreeIff(a: string, b: string, x: string, y: string)
    requires DifferAt(a, b, x, y) && CoreNumber(x) && CoreNumber(y)
    ensures Agree(a, b) <==> |x| == |y| || (CompareText(x, y) > 0 <==> |x| > |y|)
  {
    DifferentTexts(a, b, x, y);
    NumberPieces(x, y);
    AgreeOnIdentifiers(a, b, x, y);
  }

  lemma DifferentTexts(a: string, b: string, x: string, y: string)
    requires DifferAt(a, b, x, y)
    ensures x != y
  {
  }

  lemma NumberOrder(x: string, y: string)
    requires CoreNumber(x) && CoreNumber(y) && x != y
    ensures Number(x) != Number(y)
    ensures Number(x) > Number(y) <==> if |x| == |y| then CompareText(x, y) > 0 else |x| > |y|
  {
    if |x| == |y| {
      EqualLength(x, y);
    } else if |x| < |y| {
      LongerIsGreater(x, y);
    } else {
      LongerIsGreater(y, x);
    }
  }

  predicate LowerText(s: string) {
    s != [] && !Numeral(s) && forall i | 0 <= i < |s| :: Digit(s[i]) || 'a' <= s[i] <= 'z'
  }

  /** Texts of lower-case letters and digits: the orders always agree. */
  lemma LowerTextsAgree(a: string, b: string, x: string, y: string)
    requires DifferAt(a, b, x, y) && LowerText(x) && LowerText(y)
    ensures Agree(a, b)
  {
    DifferentTexts(a, b, x, y);
    LowerPiece(x);
    LowerPiece(y);
    AgreeOnIdentifiers(a, b, x, y);
  }

  lemma LowerPiece(x: string)
    requires LowerText(x)
    ensures PieceOf(x) == Piece(1, Str(x)) && NoHyphen(x)
  {
    assert LowerAll(x) == x;
  }

  /** A number against a text that starts with a letter: the orders always agree. */
  lemma NumberAgainstLetter(a: string, b: string, x: string, y: string)
    requires DifferAt(a, b, x, y) && Numeral(x) && y != [] && !Digit(y[0]) && y[0] > '9'
    ensures Agree(a, b) && Agree(b, a)
  {
    NumberBelowLetter(a, b, x, y);
    LetterAboveNumber(a, b, x, y);
  }

  lemma NumberBelowLetter(a: string, b: string, x: string, y: string)
    requires DifferAt(a, b, x, y) && Numeral(x) && y != [] && !Digit(y[0]) && y[0] > '9'
    ensures Agree(a, b)
  {
    OrdersAgreeIff(a, b);
    FirstPieceDecides(Split(Pre(a), '.'), Split(Pre(b), '.'), FirstDifferent(Split(Pre(a), '.'), Split(Pre(b), '.')));
  }

  lemma LetterAboveNumber(a: string, b: string, x: string, y: string)
    requires DifferAt(a, b, x, y) && Numeral(x) && y != [] && !Digit(y[0]) && y[0] > '9'
    ensures Agree(b, a)
  {
    OrdersAgreeIff(b, a);
    Swapped(Split(Pre(a), '.'), Split(Pre(b), '.'));
    FirstPieceDecides(Split(Pre(b), '.'), Split(Pre(a), '.'), FirstDifferent(Split(Pre(b), '.'), Split(Pre(a), '.')));
  }

  lemma {:induction false} Swapped(a: seq<string>, b: seq<string>)
    ensures FirstDifferent(a, b) == FirstDifferent(b, a)
  {
    if a != [] && b != [] && a[0] == b[0] {
      Swapped(a[1..], b[1..]);
    }
  }

  /** Different spellings of one version, by letter case or leading zeros: the updater ranks them, the Pod comparison
      does not. */
  lemma SpellingsDisagree(a: string, b: string)
    requires Semver(a).Some? && Semver(b).Some? && CompareVersions(a, b) == Some(0) && Pre(a) != Pre(b)
    ensures Agree(a, b) <==> !Agree(b, a)
  {
    SameReading(a);
    SameReading(b);
    SuffixOf(a);
    SuffixOf(b);
    CompareOrders();
    TextOrders();
    var x, y := Semver(a).value, Semver(b).value;
    assert Compare(x, y) == 0 <==> x == y;
    assert Compare(y, x) == -Compare(x, y) && CompareText(Pre(a), Pre(b)) == -CompareText(Pre(b), Pre(a));
    assert CompareText(Pre(a), Pre(b)) == 0 <==> Pre(a) == Pre(b);
    if Pre(a) == "" {
      ReleaseAbovePieces(Split(Pre(b), '.'));
      SamePieces(RELEASE);
    } else if Pre(b) == "" {
      ReleaseAbovePieces(Split(Pre(a), '.'));
      SamePieces(RELEASE);
    }
  }

  // ---------------------------------------------------------------- on strings

  /** A pre-release text behind a plain version. */
  function Tagged(core: string, pre: string): string {
    core + ['-'] + pre
  }

  lemma TaggedVersion(core: string, pre: string)
    requires Semver(core).Some? && Hyphen(core) == |core|
    requires pre != [] && forall i | 0 <= i < |pre| :: IdentifierChar(pre[i])
    ensures Semver(Tagged(core, pre)) == Some(Semver(core).value.(suffix := Pieces(Split(pre, '.'))))
    ensures Pre(Tagged(core, pre)) == pre
  {
    var s := Tagged(core, pre);
    HyphenFree(core);
    assert forall i :: 0 <= i < |core| ==> s[i] == core[i];
    HyphenAt(s, |core|);
    assert s[..|core|] == core == core[..|core|] && s[|core| + 1..] == pre;
  }

  lemma {:induction false} HyphenFree(s: string)
    ensures forall i :: 0 <= i < Hyphen(s) ==> s[i] != '-'
  {
    if s != [] && s[0] != '-' {
      HyphenFree(s[1..]);
    }
  }

  lemma TwoIdentifiers(x: string, y: string)
    requires '.' !in x && '.' !in y
    ensures Split(x + "." + y, '.') == [x, y]
  {
    SplitOne(y, '.');
    SplitMore(x, y, '.');
    assert x + ['.'] + y == x + "." + y;
  }

  lemma SameHead(x: string, y: string, z: string)
    requires y != z
    ensures FirstDifferent([x, y], [x, z]) == 1
  {
    assert [x, y][1..] == [y] && [x, z][1..] == [z];
  }

  predicate IdentifierText(s: string) {
    s != [] && '.' !in s && forall i | 0 <= i < |s| :: IdentifierChar(s[i])
  }

  lemma NumberedText(head: string, x: string)
    requires IdentifierText(head) && CoreNumber(x)
    ensures '.' !in x && head + "." + x != []
    ensures forall i | 0 <= i < |head + "." + x| :: IdentifierChar((head + "." + x)[i])
  {
    var s := head + "." + x;
    forall i | 0 <= i < |s|
      ensures IdentifierChar(s[i])
    {
      assert s[i] == if i < |head| then head[i] else if i == |head| then '.' else x[i - |head| - 1];
    }
  }

  lemma NumberedVersion(core: string, head: string, x: string)
    requires Semver(core).Some? && Hyphen(core) == |core| && IdentifierText(head) && CoreNumber(x)
    ensures var a := Tagged(core, head + "." + x);
      && Semver(a) == Some(Semver(core).value.(suffix := Pieces([head, x])))
      && Pre(a) != "" && Split(Pre(a), '.') == [head, x]
  {
    NumberedText(head, x);
    var pre := head + "." + x;
    TwoIdentifiers(head, x);
    TaggedVersion(core, pre);
  }

  lemma NumberedDiffer(core: string, head: string, x: string, y: string)
    requires Semver(core).Some? && Hyphen(core) == |core| && IdentifierText(head) && CoreNumber(x) && CoreNumber(y)
      && x != y
    ensures DifferAt(Tagged(core, head + "." + x), Tagged(core, head + "." + y), x, y)
  {
    NumberedVersion(core, head, x);
    NumberedVersion(core, head, y);
    SameHead(head, x, y);
  }

  /** The usual failing family: a shorter number that is the later text, behind the same identifier. */
  lemma ShorterNumberDisagrees(core: string, head: string, x: string, y: string)
    requires Semver(core).Some? && Hyphen(core) == |core| && IdentifierText(head)
    requires CoreNumber(x) && CoreNumber(y) && |x| < |y| && CompareText(x, y) > 0
    ensures var a, b := Tagged(core, head + "." + x), Tagged(core, head + "." + y);
            Semver(a).Some? && Semver(b).Some? && NewerText(a, b) && !(CompareVersions(a, b).value > 0)
  {
    var a, b := Tagged(core, head + "." + x), Tagged(core, head + "." + y);
    NumberedDiffer(core, head, x, y);
    NumbersAgreeIff(a, b, x, y);
    NumbersBelow(a, b, x, y);
  }

  lemma NumbersBelow(a: string, b: string, x: string, y: string)
    requires DifferAt(a, b, x, y) && CoreNumber(x) && CoreNumber(y) && |x| < |y|
    ensures !(CompareVersions(a, b).value > 0)
  {
    SuffixOf(a);
    SuffixOf(b);
    var s, t := Split(Pre(a), '.'), Split(Pre(b), '.');
    var k := FirstDifferent(s, t);
    SameBefore(s, t);
    PiecesDecidedAt(s, t, k);
    LongerIsGreater(x, y);
    FirstPieceDecides(s, t, k);
  }

  /** 1.0.0-rc.2 is newer than 1.0.0-rc.10 for the updater only. */
  lemma NumbersDisagree()
    ensures var a, b := Tagged("1.0.0", "rc" + "." + "2"), Tagged("1.0.0", "rc" + "." + "10");
            Semver(a).Some? && Semver(b).Some? && NewerText(a, b) && !(CompareVersions(a, b).value > 0)
  {
    PlainVersion('1', '0', '0');
    assert "1.0.0" == ['1', '.', '0', '.', '0'];
    HyphenAt("1.0.0", 5);
    ShorterNumberDisagrees("1.0.0", "rc", "2", "10");
  }

  lemma OneIdentifier(core: string, x: string)
    requires Semver(core).Some? && Hyphen(core) == |core| && IdentifierText(x)
    ensures Semver(Tagged(core, x)) == Some(Semver(core).value.(suffix := [PieceOf(x)])) && Pre(Tagged(core, x)) == x
  {
    TaggedVersion(core, x);
    SplitOne(x, '.');
    assert Pieces([x]) == [PieceOf(x)];
  }

  lemma SpellingsOfOne(core: string, x: string, y: string)
    requires Semver(core).Some? && Hyphen(core) == |core| && IdentifierText(x) && IdentifierText(y)
    requires x != y && PieceOf(x) == PieceOf(y)
    ensures var a, b := Tagged(core, x), Tagged(core, y);
      Semver(a).Some? && Semver(b).Some? && (Agree(a, b) <==> !Agree(b, a))
  {
    OneIdentifier(core, x);
    OneIdentifier(core, y);
    SamePieces([PieceOf(x)]);
    SpellingsDisagree(Tagged(core, x), Tagged(core, y));
  }

  /** 1.0.0-rc and 1.0.0-RC are one version for the Pod comparison only. */
  lemma CasesDisagree()
    ensures var a, b := Tagged("1.0.0", "rc"), Tagged("1.0.0", "RC");
            Semver(a).Some? && Semver(b).Some? && (Agree(a, b) <==> !Agree(b, a))
  {
    PlainVersion('1', '0', '0');
    assert "1.0.0" == ['1', '.', '0', '.', '0'];
    HyphenAt("1.0.0", 5);
    assert "rc"[0] != "RC"[0] && LowerAll("rc") == LowerAll("RC");
    SpellingsOfOne("1.0.0", "rc", "RC");
  }
}
