/** The opaque key field: a hidden text kept in step with a visible one that cannot show line breaks. */
module OpaqueKey {

  const MARK: char := '\U{2424}'

  predicate Break(c: char) {
    c == '\r' || c == '\n'
  }

  function Shown(c: char): char {
    if Break(c) then MARK else c
  }

  function Display(s: string): (r: string)
    ensures |r| == |s|
  {
    seq(|s|, i requires 0 <= i < |s| => Shown(s[i]))
  }

  predicate NoBreaks(s: string) {
    forall i | 0 <= i < |s| :: !Break(s[i])
  }

  function Min(a: nat, b: nat): (m: nat)
    ensures m <= a && m <= b && (m == a || m == b)
  {
    if a < b then a else b
  }

  /** p characters agree at the front, and no more do. */
  ghost predicate LongestPrefix(a: string, b: string, p: nat) {
    p <= |a| && p <= |b| && a[..p] == b[..p] && (p < |a| && p < |b| ==> a[p] != b[p])
  }

  /** n characters agree at the back outside the first p ones, and no more do. */
  ghost predicate LongestSuffix(a: string, b: string, p: nat, n: nat) {
    && p + n <= |a| && p + n <= |b| && a[|a| - n..] == b[|b| - n..]
    && (p + n < |a| && p + n < |b| ==> a[|a| - 1 - n] != b[|b| - 1 - n])
  }

  /** The lengths of the two agreeing ends. */
  ghost predicate Ends(a: string, b: string, p: nat, n: nat) {
    LongestPrefix(a, b, p) && LongestSuffix(a, b, p, n)
  }

  /** p characters of `text` in front, n at the back, and what is shown between them. */
  function Splice(text: string, after: string, p: nat, n: nat): (r: string)
    requires p + n <= |text| && p + n <= |after|
    ensures |r| == |after|
  {
    text[..p] + after[p..|after| - n] + text[|text| - n..]
  }

  /** The hidden text after a visible edit: the agreeing ends keep their hidden characters, the middle is taken as
      shown. */
  ghost predicate IsSync(text: string, after: string, result: string) {
    exists p: nat, n: nat :: Ends(Display(text), after, p, n) && result == Splice(text, after, p, n)
  }

  /** The two agreeing lengths are determined, and so is the result. */
  lemma SyncUnique(text: string, after: string, x: string, y: string)
    requires IsSync(text, after, x) && IsSync(text, after, y)
    ensures x == y
  {
    var p: nat, n: nat :| Ends(Display(text), after, p, n) && x == Splice(text, after, p, n);
    var q: nat, m: nat :| Ends(Display(text), after, q, m) && y == Splice(text, after, q, m);
    LengthsUnique(Display(text), after, p, n, q, m);
  }

  lemma LengthsUnique(a: string, b: string, p: nat, n: nat, q: nat, m: nat)
    requires Ends(a, b, p, n) && Ends(a, b, q, m)
    ensures p == q && n == m
  {
    PrefixUnique(a, b, p, q);
    SuffixUnique(a, b, p, n, m);
  }

  lemma PrefixAt(a: string, b: string, q: nat, k: nat)
    requires k < q <= |a| && q <= |b| && a[..q] == b[..q]
    ensures a[k] == b[k]
  {
    assert a[..q][k] == b[..q][k];
  }

  lemma SuffixAt(a: string, b: string, m: nat, k: nat)
    requires k < m <= |a| && m <= |b| && a[|a| - m..] == b[|b| - m..]
    ensures a[|a| - 1 - k] == b[|b| - 1 - k]
  {
    assert a[|a| - m..][m - 1 - k] == b[|b| - m..][m - 1 - k];
  }

  lemma PrefixUnique(a: string, b: string, p: nat, q: nat)
    requires LongestPrefix(a, b, p) && LongestPrefix(a, b, q)
    ensures p == q
  {
    if p < q {
      PrefixAt(a, b, q, p);
    }
    if q < p {
      PrefixAt(a, b, p, q);
    }
  }

  lemma SuffixUnique(a: string, b: string, p: nat, n: nat, m: nat)
    requires LongestSuffix(a, b, p, n) && LongestSuffix(a, b, p, m)
    ensures n == m
  {
    if n < m {
      SuffixAt(a, b, m, n);
    }
    if m < n {
      SuffixAt(a, b, n, m);
    }
  }

  lemma DisplayParts(a: string, b: string)
    ensures Display(a + b) == Display(a) + Display(b)
  {
  }

  lemma DisplaySlice(s: string, i: nat, j: nat)
    requires i <= j <= |s|
    ensures Display(s[i..j]) == Display(s)[i..j]
  {
  }

  lemma DisplayFixes(s: string)
    ensures Display(s) == s <==> NoBreaks(s)
    ensures NoBreaks(Display(s))
  {
    if Display(s) == s {
      assert forall i :: 0 <= i < |s| ==> s[i] == Display(s)[i];
    }
  }

  lemma DisplayedSync(text: string, after: string, p: nat, n: nat)
    requires Ends(Display(text), after, p, n)
    ensures Display(Splice(text, after, p, n)) == after[..p] + Display(after[p..|after| - n]) + after[|after| - n..]
  {
    var middle := after[p..|after| - n];
    DisplayParts(text[..p] + middle, text[|text| - n..]);
    DisplayParts(text[..p], middle);
    DisplaySlice(text, 0, p);
    DisplaySlice(text, |text| - n, |text|);
  }

  lemma ShownBreaks(s: string, i: nat, j: nat)
    requires i <= j <= |s| && NoBreaks(s[..i]) && NoBreaks(s[j..])
    ensures s[..i] + Display(s[i..j]) + s[j..] == s <==> NoBreaks(s)
  {
    var shown := s[..i] + Display(s[i..j]) + s[j..];
    assert forall k :: 0 <= k < i ==> s[..i][k] == s[k] == shown[k];
    assert forall k :: i <= k < j ==> shown[k] == Shown(s[k]);
    assert forall k :: j <= k < |s| ==> s[j..][k - j] == s[k] == shown[k];
    if shown == s {
      assert forall k :: i <= k < j ==> s[k] == Shown(s[k]);
    }
  }

  lemma EndsShown(text: string, after: string, p: nat, n: nat)
    requires Ends(Display(text), after, p, n)
    ensures NoBreaks(after[..p]) && NoBreaks(after[|after| - n..])
  {
    DisplayFixes(text);
    assert after[..p] == Display(text)[..p] && after[|after| - n..] == Display(text)[|text| - n..];
  }

  /** After a sync the hidden text shows as the visible one exactly when the visible one has no line break. */
  lemma SyncMirrors(text: string, after: string, result: string)
    requires IsSync(text, after, result)
    ensures |result| == |after|
    ensures Display(result) == after <==> NoBreaks(after)
  {
    var p: nat, n: nat :| Ends(Display(text), after, p, n) && result == Splice(text, after, p, n);
    DisplayedSync(text, after, p, n);
    EndsShown(text, after, p, n);
    ShownBreaks(after, p, |after| - n);
  }

  lemma SameEnds(a: string, p: nat, n: nat)
    requires Ends(a, a, p, n)
    ensures p == |a| && n == 0
  {
  }

  /** A sync without a visible change changes nothing. */
  lemma SyncIdentity(text: string, result: string)
    requires IsSync(text, Display(text), result)
    ensures result == text
  {
    var p: nat, n: nat :| Ends(Display(text), Display(text), p, n) && result == Splice(text, Display(text), p, n);
    SameEnds(Display(text), p, n);
  }

  lemma NoChange(text: string)
    ensures IsSync(text, Display(text), text)
  {
    var before := Display(text);
    assert Ends(before, before, |before|, 0);
    assert text == Splice(text, before, |before|, 0);
  }

  class Field {
    var text: string
    var value: string

    constructor (value: string)
      requires NoBreaks(value)
      ensures text == value && this.value == value && Mirrored()
    {
      text, this.value := value, value;
      new;
      DisplayFixes(value);
    }

    ghost predicate Mirrored()
      reads this
    {
      Display(text) == value
    }

    /** The diff loops. */
    method Sync()
      modifies `text
      ensures IsSync(old(text), value, text)
      ensures |text| == |value| && (Mirrored() <==> NoBreaks(value))
    {
      var before := Display(text);
      var prefix, suffix := 0, 0;
      ghost var start := text;
      if before == value {
        NoChange(text);
        SyncMirrors(text, value, text);
        return;
      }
      while prefix < Min(|before|, |value|) && before[prefix] == value[prefix]
        invariant 0 <= prefix <= Min(|before|, |value|) && before[..prefix] == value[..prefix]
      {
        prefix := prefix + 1;
      }
      while suffix < Min(|before|, |value|) - prefix && before[|before| - 1 - suffix] == value[|value| - 1 - suffix]
        invariant 0 <= suffix <= Min(|before|, |value|) - prefix
        invariant before[|before| - suffix..] == value[|value| - suffix..]
      {
        suffix := suffix + 1;
      }
      assert Ends(before, value, prefix, suffix);
      text := text[..prefix] + value[prefix..|value| - suffix] + if suffix > 0 then text[|text| - suffix..] else "";
      assert text == Splice(start, value, prefix, suffix);
      SyncMirrors(start, value, text);
    }

    /** A visible edit: whatever the browser makes of it, the field then shows `after`. */
    method Edit(after: string)
      requires NoBreaks(after)
      modifies this
      ensures value == after && Mirrored() && IsSync(old(text), after, text)
    {
      value := after;
      Sync();
    }

    /** A paste over the selection: the pasted text goes in with its line breaks. */
    method Paste(pasted: string, start: nat, end: nat)
      requires Mirrored() && start <= end <= |value|
      modifies this
      ensures text == old(text)[..start] + pasted + old(text)[end..]
      ensures Mirrored() && value == old(value)[..start] + Display(pasted) + old(value)[end..]
    {
      ghost var before := text;
      Sync();
      SyncIdentity(before, text);
      DisplayParts(text[..start] + pasted, text[end..]);
      DisplayParts(text[..start], pasted);
      DisplaySlice(text, 0, start);
      DisplaySlice(text, end, |text|);
      text := text[..start] + pasted + text[end..];
      value := Display(text);
      ghost var shown := text;
      Sync();
      SyncIdentity(shown, text);
    }

    method Read() returns (key: string)
      requires Mirrored()
      modifies `text
      ensures key == text == old(text) && Mirrored()
    {
      ghost var before := text;
      Sync();
      SyncIdentity(before, text);
      key := text;
    }
  }

  // ---------------------------------------------------------------- when an edit keeps the right hidden characters

  /** The field after the shown range [i, j) is replaced. */
  function Shows(text: string, i: nat, j: nat, r: string): string
    requires i <= j <= |text|
  {
    Display(text)[..i] + r + Display(text)[j..]
  }

  /** The hidden text the edit means. */
  function Meant(text: string, i: nat, j: nat, r: string): string
    requires i <= j <= |text|
  {
    text[..i] + r + text[j..]
  }

  /** Typed text: no line break, and not the mark that stands for one. */
  predicate Typed(r: string) {
    forall k | 0 <= k < |r| :: !Break(r[k]) && r[k] != MARK
  }

  lemma ShownPlain(c: char)
    ensures Shown(c) != MARK ==> Shown(c) == c
  {
  }

  /** The agreeing start reaches at least to the edit. */
  lemma StartReaches(text: string, i: nat, j: nat, r: string, p: nat)
    requires i <= j <= |text| && LongestPrefix(Display(text), Shows(text, i, j, r), p)
    ensures i <= p
  {
    assert forall k :: 0 <= k < i ==> Shows(text, i, j, r)[k] == Display(text)[k];
  }

  /** Inside the agreeing start, behind the edit, the shown text repeats itself; if the edit lengthens it, nothing
      there is a mark. */
  lemma {:induction false} NoMarkInStart(text: string, i: nat, j: nat, r: string, p: nat, k: nat)
    requires i <= j <= |text| && Typed(r) && |r| > j - i
    requires LongestPrefix(Display(text), Shows(text, i, j, r), p) && i <= k < p
    ensures Display(text)[k] != MARK
    decreases k
  {
    var before, after := Display(text), Shows(text, i, j, r);
    PrefixAt(before, after, p, k);
    if k >= i + |r| {
      NoMarkInStart(text, i, j, r, p, k - (|r| - (j - i)));
      assert after[k] == before[j..][k - i - |r|];
    } else {
      assert after[k] == r[k - i];
    }
  }

  /** What stands between the agreeing ends behind the edit has no mark either. */
  lemma NoMarkBetween(text: string, i: nat, j: nat, r: string, p: nat, n: nat, x: nat)
    requires i <= j <= |text| && Typed(r) && Ends(Display(text), Shows(text, i, j, r), p, n)
    requires i + |r| <= x && p <= x < |Shows(text, i, j, r)| - n
    ensures Shows(text, i, j, r)[x] != MARK
  {
    var before, after := Display(text), Shows(text, i, j, r);
    var m := |after| - 1 - n;
    assert after[m] == before[j..][m - i - |r|] == before[|before| - 1 - n];
    assert p + n == |before|;
    assert after[x] == before[j..][x - i - |r|];
    NoMarkInStart(text, i, j, r, p, x - (|r| - (j - i)));
  }

  lemma SplicedAt(text: string, after: string, p: nat, n: nat, x: nat)
    requires p + n <= |text| && p + n <= |after| && x < |after|
    ensures Splice(text, after, p, n)[x] ==
            if x < p then text[x] else if x < |after| - n then after[x] else text[x - |after| + |text|]
  {
  }

  lemma MeantAt(text: string, i: nat, j: nat, r: string, x: nat)
    requires i <= j <= |text| && x < |Meant(text, i, j, r)|
    ensures |Meant(text, i, j, r)| == |Shows(text, i, j, r)|
    ensures Meant(text, i, j, r)[x] == if x < i then text[x] else if x < i + |r| then r[x - i]
                                                                  else text[x - i - |r| + j]
    ensures Shows(text, i, j, r)[x] == if x >= i && x < i + |r| then r[x - i] else Shown(Meant(text, i, j, r)[x])
  {
  }

  /** Before the end of the typed text every character is right. */
  lemma RightBefore(text: string, i: nat, j: nat, r: string, p: nat, n: nat, x: nat)
    requires i <= j <= |text| && Typed(r) && Ends(Display(text), Shows(text, i, j, r), p, n)
    requires x < i + |r| && x < |Shows(text, i, j, r)|
    ensures |Meant(text, i, j, r)| == |Shows(text, i, j, r)|
    ensures Splice(text, Shows(text, i, j, r), p, n)[x] == Meant(text, i, j, r)[x]
  {
    var before, after := Display(text), Shows(text, i, j, r);
    StartReaches(text, i, j, r, p);
    SplicedAt(text, after, p, n, x);
    MeantAt(text, i, j, r, x);
    if i <= x < p {
      PrefixAt(before, after, p, x);
      ShownPlain(text[x]);
    } else if i <= x && |after| - n <= x {
      SuffixAt(before, after, n, |after| - 1 - x);
      ShownPlain(text[x - |after| + |text|]);
    }
  }

  /** Behind the typed text a character is right, except where the agreeing start has run on over other hidden
      characters. */
  lemma RightBehind(text: string, i: nat, j: nat, r: string, p: nat, n: nat, x: nat)
    requires i <= j <= |text| && Typed(r) && Ends(Display(text), Shows(text, i, j, r), p, n)
    requires i + |r| <= x < |Shows(text, i, j, r)|
    ensures |Meant(text, i, j, r)| == |Shows(text, i, j, r)|
    ensures Splice(text, Shows(text, i, j, r), p, n)[x] == Meant(text, i, j, r)[x] <==>
            (x < p ==> text[x] == text[x - i - |r| + j])
  {
    var after := Shows(text, i, j, r);
    SplicedAt(text, after, p, n, x);
    MeantAt(text, i, j, r, x);
    if p <= x < |after| - n {
      NoMarkBetween(text, i, j, r, p, n, x);
      ShownPlain(text[x - i - |r| + j]);
    }
  }

  /** As far as the shown text agrees with the old one, the characters behind the range are the ones they replace. */
  predicate RunsAlike(text: string, i: nat, j: nat, r: string, p: nat)
    requires i <= j <= |text| && p <= |text| && p <= |text| - (j - i) + |r|
  {
    forall x | i + |r| <= x < p :: text[x] == text[x - i - |r| + j]
  }

  lemma CharacterIff(text: string, i: nat, j: nat, r: string, p: nat, n: nat, x: nat)
    requires i <= j <= |text| && Typed(r) && Ends(Display(text), Shows(text, i, j, r), p, n)
    requires x < |Shows(text, i, j, r)|
    ensures |Meant(text, i, j, r)| == |Shows(text, i, j, r)|
    ensures Splice(text, Shows(text, i, j, r), p, n)[x] == Meant(text, i, j, r)[x] <==>
            (i + |r| <= x < p ==> text[x] == text[x - i - |r| + j])
  {
    if x < i + |r| {
      RightBefore(text, i, j, r, p, n, x);
    } else {
      RightBehind(text, i, j, r, p, n, x);
    }
  }

  lemma SpliceMeantIff(text: string, i: nat, j: nat, r: string, p: nat, n: nat)
    requires i <= j <= |text| && Typed(r) && Ends(Display(text), Shows(text, i, j, r), p, n)
    ensures Splice(text, Shows(text, i, j, r), p, n) == Meant(text, i, j, r) <==> RunsAlike(text, i, j, r, p)
  {
    var spliced, meant := Splice(text, Shows(text, i, j, r), p, n), Meant(text, i, j, r);
    assert |spliced| == |meant|;
    if spliced == meant {
      forall x | i + |r| <= x < p
        ensures text[x] == text[x - i - |r| + j]
      {
        CharacterIff(text, i, j, r, p, n, x);
      }
    }
    if RunsAlike(text, i, j, r, p) {
      forall x | 0 <= x < |spliced|
        ensures spliced[x] == meant[x]
      {
        CharacterIff(text, i, j, r, p, n, x);
      }
    }
  }

  lemma LongerRunsAlike(text: string, i: nat, j: nat, r: string, p: nat)
    requires i <= j <= |text| && Typed(r) && |r| >= j - i && LongestPrefix(Display(text), Shows(text, i, j, r), p)
    ensures RunsAlike(text, i, j, r, p)
  {
    forall x | i + |r| <= x < p
      ensures text[x] == text[x - i - |r| + j]
    {
      if |r| > j - i {
        NoMarkInStart(text, i, j, r, p, x);
        PrefixAt(Display(text), Shows(text, i, j, r), p, x);
        MeantAt(text, i, j, r, x);
        ShownPlain(text[x]);
        ShownPlain(text[x - i - |r| + j]);
      }
    }
  }

  /**
    Typing over a shown range keeps exactly the meant hidden characters if and only if, as far as the shown text agrees
    with the old one, the characters behind the range are the ones they replace. An edit that does not shorten the field
    always does.
   */
  lemma EditKeepsIff(text: string, i: nat, j: nat, r: string, p: nat, result: string)
    requires i <= j <= |text| && Typed(r)
    requires LongestPrefix(Display(text), Shows(text, i, j, r), p) && IsSync(text, Shows(text, i, j, r), result)
    ensures result == Meant(text, i, j, r) <==> forall x :: i + |r| <= x < p ==> text[x] == text[x - i - |r| + j]
    ensures |r| >= j - i ==> result == Meant(text, i, j, r)
  {
    var after := Shows(text, i, j, r);
    var q: nat, n: nat :| Ends(Display(text), after, q, n) && result == Splice(text, after, q, n);
    PrefixUnique(Display(text), after, p, q);
    SpliceMeantIff(text, i, j, r, p, n);
    if |r| >= j - i {
      LongerRunsAlike(text, i, j, r, p);
    }
  }

  /** All hidden breaks are alike, and no shown mark is a real one. */
  predicate OneKind(text: string, b: char) {
    forall k | 0 <= k < |text| :: text[k] != MARK && (Break(text[k]) ==> text[k] == b)
  }

  /** With one kind of break every edit keeps the right hidden characters. */
  lemma OneKindKeeps(text: string, b: char, i: nat, j: nat, r: string, result: string)
    requires OneKind(text, b) && i <= j <= |text| && Typed(r) && IsSync(text, Shows(text, i, j, r), result)
    ensures result == Meant(text, i, j, r)
  {
    var before, after := Display(text), Shows(text, i, j, r);
    var p: nat, n: nat :| Ends(before, after, p, n) && result == Splice(text, after, p, n);
    forall x | i + |r| <= x < p
      ensures text[x] == text[x - i - |r| + j]
    {
      PrefixAt(before, after, p, x);
      MeantAt(text, i, j, r, x);
    }
    EditKeepsIff(text, i, j, r, p, result);
  }

  /** Deleting the first of two different breaks keeps that one: the sync of the edit is "\r", and not the meant
      "\n". */
  lemma AdjacentBreaks()
    ensures Shows("\r\n", 0, 1, "") == [MARK] && Meant("\r\n", 0, 1, "") == "\n"
    ensures IsSync("\r\n", [MARK], "\r") && !IsSync("\r\n", [MARK], "\n")
  {
    var text := "\r\n";
    assert Display(text) == [MARK, MARK] && Display(text)[..0] + "" + Display(text)[1..] == [MARK];
    assert text[..0] + "" + text[1..] == "\n";
    assert Ends(Display(text), [MARK], 1, 0);
    assert "\r" == Splice(text, [MARK], 1, 0);
    if IsSync(text, [MARK], "\n") {
      SyncUnique(text, [MARK], "\r", "\n");
    }
    assert "\r"[0] != "\n"[0];
  }
}
