/** The JavaScript string built-ins and regular-expression character classes that the
    generator relies on, as functions over `string` (a sequence of Unicode scalar values). */
module JsText {

  /** The result of `String.prototype.match`: `null` or the matched data. */
  datatype Option<T> = None | Some(value: T)

  /** `\w` of a JavaScript regular expression without the `u` flag. */
  predicate IsWordChar(c: char) {
    ('a' <= c <= 'z') || ('A' <= c <= 'Z') || ('0' <= c <= '9') || c == '_'
  }

  /** `\d`. */
  predicate IsDigit(c: char) {
    '0' <= c <= '9'
  }

  /** `[a-zA-Z]`. */
  predicate IsAsciiLetter(c: char) {
    ('a' <= c <= 'z') || ('A' <= c <= 'Z')
  }

  /** `\s`, which is also the set `String.prototype.trim` removes: the ECMAScript
      WhiteSpace and LineTerminator code points. */
  predicate IsSpace(c: char) {
    c == '\t' || c == '\n' || c == '\U{000B}' || c == '\U{000C}' || c == '\r' || c == ' ' ||
    c == '\U{00A0}' || c == '\U{1680}' || ('\U{2000}' <= c <= '\U{200A}') ||
    c == '\U{2028}' || c == '\U{2029}' || c == '\U{202F}' || c == '\U{205F}' ||
    c == '\U{3000}' || c == '\U{FEFF}'
  }

  /** `toUpperCase` on a single character, for the ASCII letters it is applied to. */
  function UpperCase(c: char): (u: char)
    ensures 'a' <= c <= 'z' ==> 'A' <= u <= 'Z' && u as int - 'A' as int == c as int - 'a' as int
    ensures !('a' <= c <= 'z') ==> u == c
    ensures IsWordChar(c) ==> IsWordChar(u)
  {
    if 'a' <= c <= 'z' then (c as int - 32) as char else c
  }

  /** Word characters and digits are not white space. */
  lemma WordNotSpace(c: char)
    ensures IsWordChar(c) ==> !IsSpace(c)
    ensures IsDigit(c) ==> IsWordChar(c)
  {
  }

  ghost predicate AllWordChars(s: string) {
    forall k :: 0 <= k < |s| ==> IsWordChar(s[k])
  }

  ghost predicate AllSpaces(s: string) {
    forall k :: 0 <= k < |s| ==> IsSpace(s[k])
  }

  // ----- trim -----

  /** Leading white space removed. */
  function TrimStart(s: string): (r: string)
    ensures |r| <= |s| && r == s[|s| - |r|..]
    ensures forall k :: 0 <= k < |s| - |r| ==> IsSpace(s[k])
    ensures r != [] ==> !IsSpace(r[0])
  {
    if s != [] && IsSpace(s[0]) then TrimStart(s[1..]) else s
  }

  /** Trailing white space removed. */
  function TrimEnd(s: string): (r: string)
    ensures |r| <= |s| && r == s[..|r|]
    ensures forall k :: |r| <= k < |s| ==> IsSpace(s[k])
    ensures r != [] ==> !IsSpace(r[|r| - 1])
  {
    if s != [] && IsSpace(s[|s| - 1]) then TrimEnd(s[..|s| - 1]) else s
  }

  /** `r` is `s` with white space only before index `i` and after `r`. */
  ghost predicate CutAt(s: string, i: nat, r: string) {
    i + |r| <= |s| && r == s[i..i + |r|] &&
    (forall k :: 0 <= k < i ==> IsSpace(s[k])) &&
    (forall k :: i + |r| <= k < |s| ==> IsSpace(s[k]))
  }

  /** `String.prototype.trim`: the longest infix with no white space at either end. */
  function Trim(s: string): (r: string)
    ensures |r| <= |s|
    ensures r != [] ==> !IsSpace(r[0]) && !IsSpace(r[|r| - 1])
    ensures r == [] <==> AllSpaces(s)
    ensures exists i :: CutAt(s, i, r)
  {
    var t := TrimStart(s);
    var r := TrimEnd(t);
    assert r == [] ==> t == [];
    CutOfBothEnds(s, t, r);
    r
  }

  /** Cutting white space from the front and then from the back is one cut. */
  lemma CutOfBothEnds(s: string, t: string, r: string)
    requires |t| <= |s| && t == s[|s| - |t|..] && forall k :: 0 <= k < |s| - |t| ==> IsSpace(s[k])
    requires |r| <= |t| && r == t[..|r|] && forall k :: |r| <= k < |t| ==> IsSpace(t[k])
    ensures CutAt(s, |s| - |t|, r)
  {
    var i := |s| - |t|;
    forall k | i + |r| <= k < |s| ensures IsSpace(s[k]) {
      assert s[k] == t[k - i];
    }
  }

  /** A string with no white space at either end trims to itself. */
  lemma TrimUnchanged(s: string)
    requires s == [] || (!IsSpace(s[0]) && !IsSpace(s[|s| - 1]))
    ensures Trim(s) == s
  {
  }

  /** Trimming a string made of white space and then a white-space-free-ended tail
      yields that tail. */
  lemma {:induction false} TrimAfterSpaces(s: string, k: nat)
    requires k < |s|
    requires forall j :: 0 <= j < k ==> IsSpace(s[j])
    requires !IsSpace(s[k]) && !IsSpace(s[|s| - 1])
    ensures Trim(s) == s[k..]
  {
    TrimStartAfterSpaces(s, k);
  }

  /** The same, for the part of `s` from index `lo` on. */
  lemma TrimAfterSpacesFrom(s: string, lo: nat, k: nat)
    requires lo <= k < |s|
    requires forall j :: lo <= j < k ==> IsSpace(s[j])
    requires !IsSpace(s[k]) && !IsSpace(s[|s| - 1])
    ensures Trim(s[lo..]) == s[k..]
  {
    SpacesFrom(s, lo, k);
    TrimAfterSpaces(s[lo..], k - lo);
  }

  /** The facts of `TrimAfterSpacesFrom` restated for the slice from `lo`. */
  lemma SpacesFrom(s: string, lo: nat, k: nat)
    requires lo <= k < |s|
    requires forall j :: lo <= j < k ==> IsSpace(s[j])
    requires !IsSpace(s[k]) && !IsSpace(s[|s| - 1])
    ensures var r := s[lo..];
      k - lo < |r| && (forall j :: 0 <= j < k - lo ==> IsSpace(r[j])) &&
      !IsSpace(r[k - lo]) && !IsSpace(r[|r| - 1]) && r[k - lo..] == s[k..]
  {
    var r := s[lo..];
    forall j | 0 <= j < k - lo ensures IsSpace(r[j]) {
      assert r[j] == s[lo + j];
    }
    assert r[k - lo] == s[k] && r[|r| - 1] == s[|s| - 1];
  }

  lemma {:induction false} TrimStartAfterSpaces(s: string, k: nat)
    requires k < |s|
    requires forall j :: 0 <= j < k ==> IsSpace(s[j])
    requires !IsSpace(s[k])
    ensures TrimStart(s) == s[k..]
  {
    if k > 0 {
      TrimStartAfterSpaces(s[1..], k - 1);
      assert s[1..][k - 1..] == s[k..];
    }
  }

  // ----- startsWith, includes -----

  /** `String.prototype.startsWith`. */
  predicate StartsWith(s: string, p: string) {
    |p| <= |s| && s[..|p|] == p
  }

  /** `sub` occurs in `s` at index `k`. */
  predicate OccursAt(s: string, sub: string, k: nat) {
    k + |sub| <= |s| && s[k..k + |sub|] == sub
  }

  /** `String.prototype.includes`. */
  predicate Includes(s: string, sub: string) {
    IncludesFrom(s, sub, 0)
  }

  /** Some occurrence of `sub` in `s` starts at or after `k`. */
  predicate IncludesFrom(s: string, sub: string, k: nat)
    decreases |s| - k
  {
    if k + |sub| > |s| then false
    else if s[k..k + |sub|] == sub then true
    else IncludesFrom(s, sub, k + 1)
  }

  lemma {:induction false} IncludesFromMeaning(s: string, sub: string, k: nat)
    ensures IncludesFrom(s, sub, k) <==> exists j :: k <= j && OccursAt(s, sub, j)
    decreases |s| - k
  {
    if k + |sub| > |s| {
      assert forall j :: k <= j ==> !OccursAt(s, sub, j);
    } else if s[k..k + |sub|] == sub {
      assert OccursAt(s, sub, k);
    } else {
      IncludesFromMeaning(s, sub, k + 1);
      assert forall j :: k <= j && OccursAt(s, sub, j) ==> k + 1 <= j;
    }
  }

  /** `includes` is true exactly when the text occurs somewhere. */
  lemma IncludesMeaning(s: string, sub: string)
    ensures Includes(s, sub) <==> exists j :: OccursAt(s, sub, j)
  {
    IncludesFromMeaning(s, sub, 0);
  }

  // ----- indexOf, lastIndexOf, replace -----

  /** `String.prototype.indexOf` for one character, from index `k` on. */
  function IndexOfFrom(s: string, c: char, k: nat): (r: int)
    requires k <= |s|
    ensures r == -1 <==> forall j :: k <= j < |s| ==> s[j] != c
    ensures r != -1 ==> k <= r < |s| && s[r] == c && forall j :: k <= j < r ==> s[j] != c
    decreases |s| - k
  {
    if k == |s| then -1 else if s[k] == c then k else IndexOfFrom(s, c, k + 1)
  }

  /** `String.prototype.lastIndexOf` for one character, below index `n`. */
  function LastIndexBelow(s: string, c: char, n: nat): (r: int)
    requires n <= |s|
    ensures r == -1 <==> forall j :: 0 <= j < n ==> s[j] != c
    ensures r != -1 ==> 0 <= r < n && s[r] == c && forall j :: r < j < n ==> s[j] != c
  {
    if n == 0 then -1 else if s[n - 1] == c then n - 1 else LastIndexBelow(s, c, n - 1)
  }

  function LastIndexOf(s: string, c: char): (r: int)
    ensures r == -1 <==> c !in s
    ensures r != -1 ==> 0 <= r < |s| && s[r] == c && forall j :: r < j < |s| ==> s[j] != c
  {
    LastIndexBelow(s, c, |s|)
  }

  /** `s.replace(c, '')` with a one-character string pattern: only the first
      occurrence is removed. */
  function ReplaceFirst(s: string, c: char): (r: string)
    ensures c !in s ==> r == s
    ensures c in s ==> |r| == |s| - 1 && exists k :: RemovedFirstAt(s, c, k, r)
  {
    var k := IndexOfFrom(s, c, 0);
    if k == -1 then s
    else
      FirstRemoved(s, c, k);
      s[..k] + s[k + 1..]
  }

  /** `r` is `s` without its character at `k`, which is the first `c` in `s`. */
  ghost predicate RemovedFirstAt(s: string, c: char, k: nat, r: string) {
    k < |s| && s[k] == c && c !in s[..k] && r == s[..k] + s[k + 1..]
  }

  lemma FirstRemoved(s: string, c: char, k: nat)
    requires k < |s| && s[k] == c && forall j :: 0 <= j < k ==> s[j] != c
    ensures RemovedFirstAt(s, c, k, s[..k] + s[k + 1..])
  {
    forall j | 0 <= j < k ensures s[..k][j] != c { }
  }

  /** Removing the first occurrence of the head character drops the head. */
  lemma ReplaceFirstAtHead(s: string, c: char)
    requires s != [] && s[0] == c
    ensures ReplaceFirst(s, c) == s[1..]
  {
    assert IndexOfFrom(s, c, 0) == 0;
  }

  // ----- split on one character -----

  /** The pieces joined back with the separator between them. */
  function Join(parts: seq<string>, sep: char): string
    requires |parts| > 0
  {
    if |parts| == 1 then parts[0] else parts[0] + [sep] + Join(parts[1..], sep)
  }

  /** `String.prototype.split` with a one-character separator: at least one piece,
      no piece holds the separator, and joining the pieces gives the input back. */
  function Split(s: string, sep: char): (parts: seq<string>)
    ensures |parts| > 0
    ensures forall k :: 0 <= k < |parts| ==> sep !in parts[k]
    ensures Join(parts, sep) == s
    decreases |s|
  {
    var k := IndexOfFrom(s, sep, 0);
    if k == -1 then [s]
    else
      var rest := Split(s[k + 1..], sep);
      assert sep !in s[..k] by {
        forall j | 0 <= j < k ensures s[..k][j] != sep { }
      }
      assert s == s[..k] + [sep] + s[k + 1..];
      [s[..k]] + rest
  }

  /** The other direction of the round trip: pieces without the separator are
      recovered by splitting their join. */
  lemma {:induction false} SplitJoin(parts: seq<string>, sep: char)
    requires |parts| > 0
    requires forall k :: 0 <= k < |parts| ==> sep !in parts[k]
    ensures Split(Join(parts, sep), sep) == parts
  {
    var s := Join(parts, sep);
    var p := parts[0];
    if |parts| == 1 {
      assert IndexOfFrom(s, sep, 0) == -1;
    } else {
      var tail := Join(parts[1..], sep);
      assert s == p + [sep] + tail;
      assert s[|p|] == sep;
      assert forall j :: 0 <= j < |p| ==> s[j] == p[j];
      assert IndexOfFrom(s, sep, 0) == |p|;
      assert s[..|p|] == p;
      assert s[|p| + 1..] == tail;
      SplitJoin(parts[1..], sep);
    }
  }

  lemma AllSpacesAppend(a: string, b: string)
    ensures AllSpaces(a + b) <==> AllSpaces(a) && AllSpaces(b)
  {
    if AllSpaces(a + b) {
      assert forall k :: 0 <= k < |a| ==> a[k] == (a + b)[k];
      assert forall k :: 0 <= k < |b| ==> b[k] == (a + b)[|a| + k];
    }
  }

  /** Joined with a white-space separator, the pieces are all white space exactly
      when each piece is. */
  lemma {:induction false} JoinAllSpaces(parts: seq<string>, sep: char)
    requires |parts| > 0 && IsSpace(sep)
    ensures AllSpaces(Join(parts, sep)) <==> forall k :: 0 <= k < |parts| ==> AllSpaces(parts[k])
  {
    if |parts| > 1 {
      var rest := parts[1..];
      JoinAllSpaces(rest, sep);
      AllSpacesAppend(parts[0] + [sep], Join(rest, sep));
      AllSpacesAppend(parts[0], [sep]);
      assert forall k :: 1 <= k < |parts| ==> parts[k] == rest[k - 1];
    }
  }

  // ----- number of a character -----

  function CountChar(s: string, c: char): nat
  {
    if s == [] then 0 else (if s[0] == c then 1 else 0) + CountChar(s[1..], c)
  }

  lemma {:induction false} CountCharAppend(a: string, b: string, c: char)
    ensures CountChar(a + b, c) == CountChar(a, c) + CountChar(b, c)
  {
    if a == [] {
      assert a + b == b;
    } else {
      assert (a + b)[0] == a[0];
      assert (a + b)[1..] == a[1..] + b;
      CountCharAppend(a[1..], b, c);
    }
  }

  lemma {:induction false} CountCharAbsent(s: string, c: char)
    requires c !in s
    ensures CountChar(s, c) == 0
  {
    if s != [] {
      assert c !in s[1..];
      CountCharAbsent(s[1..], c);
    }
  }
}
