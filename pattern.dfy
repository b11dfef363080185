/** The two declaration patterns of src/getterSetter.js (lines 39 and 40),
      standard:  (\w+(?:\s+\w+)*)\s+(\*?\s*\w+);
      array:     (\w+(?:\s+\w+)*)\s+(\*?\s*\w+)\[(\d+)\];
    searched for anywhere in a line (`String.prototype.match`, no anchors).

    `IsMatch` reads a pattern as the language it denotes, with every way the groups
    can split the text. `Find` is a direct matcher written for these two patterns;
    `FindIsLeftmostGreedy` proves that it returns the match a backtracking engine
    returns: the leftmost one and, at that start, the one whose `\s+` before group 2
    is longest (group 1 and the end of group 2 are then forced). */
module DeclarationPattern {
  import opened JsText

  datatype Form = Standard | Array

  /** The character classes the matcher scans over. */
  datatype Class = Word | Space | Digit | WordOrSpace

  predicate InClass(c: char, k: Class) {
    match k
    case Word => IsWordChar(c)
    case Space => IsSpace(c)
    case Digit => IsDigit(c)
    case WordOrSpace => IsWordChar(c) || IsSpace(c)
  }

  /** End of the run of class-`k` characters that starts at `p`. */
  function RunEnd(t: string, p: nat, k: Class): (q: nat)
    requires p <= |t|
    ensures p <= q <= |t|
    ensures forall j :: p <= j < q ==> InClass(t[j], k)
    ensures q < |t| ==> !InClass(t[q], k)
    decreases |t| - p
  {
    if p < |t| && InClass(t[p], k) then RunEnd(t, p + 1, k) else p
  }

  /** Start of the run of class-`k` characters that ends at `p`, not going below `lo`. */
  function RunStart(t: string, lo: nat, p: nat, k: Class): (q: nat)
    requires lo <= p <= |t|
    ensures lo <= q <= p
    ensures forall j :: q <= j < p ==> InClass(t[j], k)
    ensures q > lo ==> !InClass(t[q - 1], k)
  {
    if p > lo && InClass(t[p - 1], k) then RunStart(t, lo, p - 1, k) else p
  }

  lemma RunEndIs(t: string, p: nat, k: Class, q: nat)
    requires p <= q <= |t|
    requires forall j :: p <= j < q ==> InClass(t[j], k)
    requires q < |t| ==> !InClass(t[q], k)
    ensures RunEnd(t, p, k) == q
  {
  }

  lemma RunStartIs(t: string, lo: nat, p: nat, k: Class, q: nat)
    requires lo <= q <= p <= |t|
    requires forall j :: q <= j < p ==> InClass(t[j], k)
    requires q > lo ==> !InClass(t[q - 1], k)
    ensures RunStart(t, lo, p, k) == q
  {
  }

  // ----- the patterns as languages -----

  /** Group 1, `\w+(?:\s+\w+)*`, at [i, a): word and white-space characters, the
      first and the last a word character. */
  ghost predicate TypeGroupAt(t: string, i: nat, a: nat) {
    i < a <= |t| && IsWordChar(t[i]) && IsWordChar(t[a - 1]) &&
    forall j :: i <= j < a ==> IsWordChar(t[j]) || IsSpace(t[j])
  }

  /** `\s+` at [a, b). */
  ghost predicate SpacesAt(t: string, a: nat, b: nat) {
    a < b <= |t| && forall j :: a <= j < b ==> IsSpace(t[j])
  }

  /** Group 2, `\*?\s*\w+`, at [b, c), its `\w+` at [w, c). */
  ghost predicate IdentGroupAt(t: string, b: nat, w: nat, c: nat) {
    b <= w < c <= |t| &&
    (var s0 := if t[b] == '*' then b + 1 else b;
     s0 <= w && forall j :: s0 <= j < w ==> IsSpace(t[j])) &&
    forall j :: w <= j < c ==> IsWordChar(t[j])
  }

  /** What follows group 2, from index `c`: `;` for the standard form; `[`, the
      digits of group 3 up to index `d`, `]` and `;` for the array form. */
  ghost predicate TailAt(t: string, form: Form, c: nat, d: nat) {
    match form
    case Standard => d == c && c < |t| && t[c] == ';'
    case Array =>
      c + 1 < d && d + 1 < |t| && t[c] == '[' &&
      (forall j :: c < j < d ==> IsDigit(t[j])) && t[d] == ']' && t[d + 1] == ';'
  }

  /** The pattern matches the line from index `i`, with group 1 at [i, a), the `\s+`
      at [a, b), group 2 at [b, c) with its `\w+` at [w, c), and the tail from `c`. */
  ghost predicate IsMatch(t: string, form: Form, i: nat, a: nat, b: nat, w: nat, c: nat, d: nat) {
    TypeGroupAt(t, i, a) && SpacesAt(t, a, b) && IdentGroupAt(t, b, w, c) && TailAt(t, form, c, d)
  }

  ghost predicate MatchesAt(t: string, form: Form, i: nat) {
    exists a: nat, b: nat, w: nat, c: nat, d: nat :: IsMatch(t, form, i, a, b, w, c, d)
  }

  // ----- the matcher -----

  /** Where the groups of one match lie: group 1 is [start, typeEnd), group 2 is
      [identStart, identEnd) with its word part from nameStart, and group 3 of the
      array form is [identEnd + 1, sizeEnd). */
  datatype Span = Span(start: nat, typeEnd: nat, identStart: nat, nameStart: nat, identEnd: nat, sizeEnd: nat)

  /** The tail after group 2 at `c`; the array form yields the end of its digits. */
  function TailEnd(t: string, form: Form, c: nat): (r: Option<nat>)
    requires c <= |t|
    ensures r.Some? ==> TailAt(t, form, c, r.value)
    ensures forall d: nat :: TailAt(t, form, c, d) ==> r == Some(d)
  {
    match form
    case Standard =>
      if c < |t| && t[c] == ';' then Some(c) else None
    case Array =>
      if c < |t| && t[c] == '[' then
        var d := RunEnd(t, c + 1, Digit);
        if c + 1 < d && d + 1 < |t| && t[d] == ']' && t[d + 1] == ';' then Some(d) else None
      else None
  }

  /** A match from `i` whose group 2 starts with the `*` at `e`. */
  function StarMatch(t: string, form: Form, i: nat, e: nat): Option<Span>
    requires i < e < |t|
  {
    var a := RunStart(t, i, e, Space);
    var w := RunEnd(t, e + 1, Space);
    var c := RunEnd(t, w, Word);
    if a == e || w == c then None
    else
      match TailEnd(t, form, c)
      case None => None
      case Some(d) => Some(Span(i, a, e, w, c, d))
  }

  /** A match from `i` whose group 2 is the word that ends at `e`. */
  function PlainMatch(t: string, form: Form, i: nat, e: nat): Option<Span>
    requires i < e <= |t|
  {
    var w := RunStart(t, i, e, Word);
    var a := RunStart(t, i, w, Space);
    if w == e || a == w then None
    else
      match TailEnd(t, form, e)
      case None => None
      case Some(d) => Some(Span(i, a, w, w, e, d))
  }

  /** The match that starts at index `i`, if there is one. Group 1 and the `\s+` can
      only use word and white-space characters, so they end where that run `e` ends:
      there either a `*` begins group 2, or the tail follows group 2 directly. */
  function MatchAt(t: string, form: Form, i: nat): (r: Option<Span>)
    requires i <= |t|
    ensures r.Some? ==> r.value.start == i
  {
    if i == |t| || !IsWordChar(t[i]) then None
    else
      var e := RunEnd(t, i, WordOrSpace);
      if e < |t| && t[e] == '*' then StarMatch(t, form, i, e) else PlainMatch(t, form, i, e)
  }

  ghost predicate SpanIsMatch(t: string, form: Form, sp: Span) {
    IsMatch(t, form, sp.start, sp.typeEnd, sp.identStart, sp.nameStart, sp.identEnd, sp.sizeEnd)
  }

  lemma StarMatchSound(t: string, form: Form, i: nat, e: nat)
    requires i < e < |t| && t[e] == '*' && IsWordChar(t[i])
    requires forall j :: i <= j < e ==> InClass(t[j], WordOrSpace)
    requires StarMatch(t, form, i, e).Some?
    ensures var sp := StarMatch(t, form, i, e).value;
      sp.start == i && SpanIsMatch(t, form, sp) && !IsSpace(t[sp.identStart])
  {
    var sp := StarMatch(t, form, i, e).value;
    var a := RunStart(t, i, e, Space);
    assert a > i by { assert !IsSpace(t[i]); }
    assert InClass(t[a - 1], WordOrSpace);
    assert TypeGroupAt(t, i, a);
    assert SpacesAt(t, a, e);
    assert IdentGroupAt(t, e, sp.nameStart, sp.identEnd);
  }

  lemma PlainMatchSound(t: string, form: Form, i: nat, e: nat)
    requires i < e <= |t| && IsWordChar(t[i])
    requires forall j :: i <= j < e ==> InClass(t[j], WordOrSpace)
    requires PlainMatch(t, form, i, e).Some?
    ensures var sp := PlainMatch(t, form, i, e).value;
      sp.start == i && SpanIsMatch(t, form, sp) && !IsSpace(t[sp.identStart])
  {
    var w := RunStart(t, i, e, Word);
    var a := RunStart(t, i, w, Space);
    assert w > i;
    assert InClass(t[w - 1], WordOrSpace);
    assert a > i by { assert !IsSpace(t[i]); }
    assert InClass(t[a - 1], WordOrSpace);
    assert TypeGroupAt(t, i, a);
    assert SpacesAt(t, a, w);
    assert IdentGroupAt(t, w, w, e);
  }

  /** What `MatchAt` returns is a match, and its group 2 does not start with white space. */
  lemma MatchAtSound(t: string, form: Form, i: nat)
    requires i <= |t|
    requires MatchAt(t, form, i).Some?
    ensures var sp := MatchAt(t, form, i).value;
      sp.start == i && SpanIsMatch(t, form, sp) && !IsSpace(t[sp.identStart])
  {
    var e := RunEnd(t, i, WordOrSpace);
    if e < |t| && t[e] == '*' {
      StarMatchSound(t, form, i, e);
    } else {
      PlainMatchSound(t, form, i, e);
    }
  }

  /** After group 2 comes `;` or `[`, neither a word nor a white-space character. */
  lemma TailNotWordOrSpace(t: string, form: Form, c: nat, d: nat)
    requires TailAt(t, form, c, d)
    ensures c < |t| && !InClass(t[c], WordOrSpace) && !InClass(t[c], Word)
  {
    match form
    case Standard =>
    case Array =>
  }

  /** The runs `StarMatch` measures for a match whose group 2 starts with `*`. */
  lemma StarRuns(t: string, i: nat, a: nat, b: nat, w: nat, c: nat)
    requires TypeGroupAt(t, i, a) && SpacesAt(t, a, b) && IdentGroupAt(t, b, w, c) && t[b] == '*'
    requires c < |t| && !InClass(t[c], Word)
    ensures RunEnd(t, i, WordOrSpace) == b && RunStart(t, i, b, Space) == a
    ensures RunEnd(t, b + 1, Space) == w && RunEnd(t, w, Word) == c
  {
    assert forall j :: i <= j < b ==> InClass(t[j], WordOrSpace);
    RunEndIs(t, i, WordOrSpace, b);
    RunStartIs(t, i, b, Space, a);
    RunEndIs(t, b + 1, Space, w);
    RunEndIs(t, w, Word, c);
  }

  lemma StarMatchComplete(t: string, form: Form, i: nat, a: nat, b: nat, w: nat, c: nat, d: nat)
    requires IsMatch(t, form, i, a, b, w, c, d) && t[b] == '*'
    ensures MatchAt(t, form, i) == Some(Span(i, a, b, w, c, d))
  {
    assert TypeGroupAt(t, i, a) && SpacesAt(t, a, b) && IdentGroupAt(t, b, w, c);
    TailNotWordOrSpace(t, form, c, d);
    StarRuns(t, i, a, b, w, c);
    assert TailEnd(t, form, c) == Some(d);
  }

  /** The three runs `PlainMatch` measures for a match whose group 2 has no `*`. */
  lemma PlainRuns(t: string, i: nat, a: nat, b: nat, w: nat, c: nat)
    requires TypeGroupAt(t, i, a) && SpacesAt(t, a, b) && IdentGroupAt(t, b, w, c) && t[b] != '*'
    requires c < |t| && !InClass(t[c], WordOrSpace)
    ensures RunEnd(t, i, WordOrSpace) == c && RunStart(t, i, c, Word) == w && RunStart(t, i, w, Space) == a
  {
    assert forall j :: i <= j < c ==> InClass(t[j], WordOrSpace);
    RunEndIs(t, i, WordOrSpace, c);
    assert !IsWordChar(t[w - 1]) by {
      if w == b { assert a <= w - 1 < b; }
    }
    RunStartIs(t, i, c, Word, w);
    assert forall j :: a <= j < w ==> InClass(t[j], Space);
    RunStartIs(t, i, w, Space, a);
  }

  lemma PlainMatchComplete(t: string, form: Form, i: nat, a: nat, b: nat, w: nat, c: nat, d: nat)
    requires IsMatch(t, form, i, a, b, w, c, d) && t[b] != '*'
    ensures MatchAt(t, form, i) == Some(Span(i, a, w, w, c, d))
  {
    assert TypeGroupAt(t, i, a) && SpacesAt(t, a, b) && IdentGroupAt(t, b, w, c);
    TailNotWordOrSpace(t, form, c, d);
    PlainRuns(t, i, a, b, w, c);
    assert TailEnd(t, form, c) == Some(d);
  }

  /** Every match at `i` is found by `MatchAt`, with the same group 1, the same end of
      group 2 and of group 3, and a `\s+` at least as long: at a given start the
      match is unique up to how the white space before group 2 is shared out, and
      `MatchAt` gives all of it to `\s+`, as greedy backtracking does. */
  lemma MatchAtComplete(t: string, form: Form, i: nat, a: nat, b: nat, w: nat, c: nat, d: nat)
    requires IsMatch(t, form, i, a, b, w, c, d)
    ensures MatchAt(t, form, i).Some?
    ensures var sp := MatchAt(t, form, i).value;
      sp.typeEnd == a && b <= sp.identStart && sp.nameStart == w && sp.identEnd == c && sp.sizeEnd == d
  {
    if t[b] == '*' {
      StarMatchComplete(t, form, i, a, b, w, c, d);
    } else {
      PlainMatchComplete(t, form, i, a, b, w, c, d);
    }
  }

  /** The leftmost start at or after `i` with a match. */
  function FindFrom(t: string, form: Form, i: nat): Option<Span>
    requires i <= |t|
    decreases |t| - i
  {
    match MatchAt(t, form, i)
    case Some(sp) => Some(sp)
    case None => if i == |t| then None else FindFrom(t, form, i + 1)
  }

  /** `FindFrom` returns what `MatchAt` finds at the first start that has a match. */
  lemma {:induction false} FindFromFirst(t: string, form: Form, i: nat)
    requires i <= |t|
    ensures var r := FindFrom(t, form, i);
      (r.Some? ==> i <= r.value.start <= |t| && MatchAt(t, form, r.value.start) == r) &&
      (r.Some? ==> forall j :: i <= j < r.value.start ==> MatchAt(t, form, j).None?) &&
      (r.None? ==> forall j :: i <= j <= |t| ==> MatchAt(t, form, j).None?)
    decreases |t| - i
  {
    var m := MatchAt(t, form, i);
    var r := FindFrom(t, form, i);
    if m.Some? {
      assert r == m;
    } else if i < |t| {
      assert r == FindFrom(t, form, i + 1);
      FindFromFirst(t, form, i + 1);
      if r.Some? {
        forall j | i <= j < r.value.start ensures MatchAt(t, form, j).None? {
          if j == i { assert m.None?; }
        }
      } else {
        forall j | i <= j <= |t| ensures MatchAt(t, form, j).None? {
          if j == i { assert m.None?; }
        }
      }
    }
  }

  /** `line.match(pattern)`, as the positions of its groups. */
  function Find(t: string, form: Form): Option<Span> {
    FindFrom(t, form, 0)
  }

  /** `Find` follows the matching rules of a backtracking engine: it fails exactly
      when the pattern matches nowhere; otherwise its result is a match, no match
      starts further left, and every match at the same start has the same group 1,
      the same group 2 end and group 3, and a `\s+` no longer than the one chosen. */
  lemma FindIsLeftmostGreedy(t: string, form: Form)
    ensures Find(t, form).None? <==> forall i: nat :: !MatchesAt(t, form, i)
    ensures Find(t, form).Some? ==>
      var sp := Find(t, form).value;
      SpanIsMatch(t, form, sp) &&
      (forall j: nat :: j < sp.start ==> !MatchesAt(t, form, j)) &&
      (forall a: nat, b: nat, w: nat, c: nat, d: nat :: IsMatch(t, form, sp.start, a, b, w, c, d) ==>
         a == sp.typeEnd && b <= sp.identStart && w == sp.nameStart && c == sp.identEnd && d == sp.sizeEnd)
  {
    var r := Find(t, form);
    FindFromFirst(t, form, 0);
    forall j: nat, a: nat, b: nat, w: nat, c: nat, d: nat | IsMatch(t, form, j, a, b, w, c, d)
      ensures r.Some? && r.value.start <= j
    {
      MatchAtComplete(t, form, j, a, b, w, c, d);
    }
    if r.Some? {
      var sp := r.value;
      MatchAtSound(t, form, sp.start);
      assert MatchesAt(t, form, sp.start);
      forall a: nat, b: nat, w: nat, c: nat, d: nat | IsMatch(t, form, sp.start, a, b, w, c, d)
        ensures a == sp.typeEnd && b <= sp.identStart && w == sp.nameStart && c == sp.identEnd && d == sp.sizeEnd
      {
        MatchAtComplete(t, form, sp.start, a, b, w, c, d);
      }
    }
  }

  // ----- the captured groups -----

  /** Groups 1, 2 and 3 of a match (group 3 is empty for the standard form). */
  datatype Captures = Captures(typeText: string, identText: string, sizeText: string)

  /** Group 1 as the pattern allows it: word and white-space characters, beginning
      and ending with a word character. */
  ghost predicate TypeShaped(s: string) {
    |s| > 0 && IsWordChar(s[0]) && IsWordChar(s[|s| - 1]) &&
    forall k :: 0 <= k < |s| ==> IsWordChar(s[k]) || IsSpace(s[k])
  }

  /** Group 2 of the chosen match: `*`, white space up to index `n`, and a word
      from `n` on. */
  ghost predicate StarredName(s: string, n: nat) {
    1 <= n < |s| && s[0] == '*' &&
    (forall k :: 1 <= k < n ==> IsSpace(s[k])) &&
    (forall k :: n <= k < |s| ==> IsWordChar(s[k]))
  }

  /** Group 2 of the chosen match: a word, or a starred word. */
  ghost predicate IdentShaped(s: string) {
    (|s| > 0 && s[0] != '*' && AllWordChars(s)) || (exists n :: StarredName(s, n))
  }

  ghost predicate SizeShaped(form: Form, s: string) {
    match form
    case Standard => s == []
    case Array => |s| > 0 && forall k :: 0 <= k < |s| ==> IsDigit(s[k])
  }

  /** The texts of the groups of a match. */
  function CapturesOf(t: string, form: Form, sp: Span): Captures
    requires sp.start <= sp.typeEnd <= sp.identStart <= sp.identEnd <= |t|
    requires form == Array ==> sp.identEnd + 1 <= sp.sizeEnd <= |t|
  {
    Captures(t[sp.start..sp.typeEnd], t[sp.identStart..sp.identEnd],
             if form == Array then t[sp.identEnd + 1..sp.sizeEnd] else "")
  }

  lemma TypeGroupShaped(t: string, i: nat, a: nat)
    requires TypeGroupAt(t, i, a)
    ensures TypeShaped(t[i..a])
  {
    var s := t[i..a];
    forall k | 0 <= k < |s| ensures IsWordChar(s[k]) || IsSpace(s[k]) {
      assert s[k] == t[i + k];
    }
  }

  lemma IdentGroupShaped(t: string, b: nat, w: nat, c: nat)
    requires IdentGroupAt(t, b, w, c) && !IsSpace(t[b])
    ensures IdentShaped(t[b..c])
  {
    var s := t[b..c];
    forall k | w - b <= k < |s| ensures IsWordChar(s[k]) {
      assert s[k] == t[b + k];
    }
    if t[b] == '*' {
      forall k | 1 <= k < w - b ensures IsSpace(s[k]) {
        assert s[k] == t[b + k];
      }
      assert StarredName(s, w - b);
    } else {
      assert w == b;
    }
  }

  lemma TailShaped(t: string, form: Form, c: nat, d: nat)
    requires TailAt(t, form, c, d)
    ensures form == Array ==> c + 1 <= d <= |t| && SizeShaped(Array, t[c + 1..d])
  {
    if form == Array {
      var s := t[c + 1..d];
      forall k | 0 <= k < |s| ensures IsDigit(s[k]) {
        assert s[k] == t[c + 1 + k];
      }
    }
  }

  lemma CapturesShaped(t: string, form: Form, sp: Span)
    requires SpanIsMatch(t, form, sp) && !IsSpace(t[sp.identStart])
    ensures var cap := CapturesOf(t, form, sp);
      TypeShaped(cap.typeText) && IdentShaped(cap.identText) && SizeShaped(form, cap.sizeText)
  {
    TypeGroupShaped(t, sp.start, sp.typeEnd);
    IdentGroupShaped(t, sp.identStart, sp.nameStart, sp.identEnd);
    TailShaped(t, form, sp.identEnd, sp.sizeEnd);
  }

  /** The groups of `line.match(pattern)`, or `None` for `null`. */
  function Match(t: string, form: Form): (r: Option<Captures>)
    ensures r.Some? <==> Find(t, form).Some?
    ensures r.Some? ==>
      TypeShaped(r.value.typeText) && IdentShaped(r.value.identText) && SizeShaped(form, r.value.sizeText)
  {
    match Find(t, form)
    case None => None
    case Some(sp) =>
      FindFromFirst(t, form, 0);
      MatchAtSound(t, form, sp.start);
      CapturesShaped(t, form, sp);
      Some(CapturesOf(t, form, sp))
  }
}
