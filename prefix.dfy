/** The setter's parameter prefix, src/getterSetter.js lines 80-123: the Hungarian
    type code found by the pattern of line 83,
        .*m[a-zA-Z](ull|ul|ld|ui|us|uc|sc|s|i|l|f|d|b|c|C)_
    mapped through the switch of lines 87-109, then the `mcS_` override and the
    pointer `p`. The pattern is case-sensitive. `.` is read as any character: the
    names it is applied to consist of word characters only (see
    `AccessorGenerator.ClassifyShape`), so the line terminators `.` refuses never occur. */
module ParameterPrefix {
  import opened JsText

  /** The alternatives of the group, in the order the engine tries them. */
  const Codes: seq<string> := ["ull", "ul", "ld", "ui", "us", "uc", "sc", "s", "i", "l", "f", "d", "b", "c", "C"]

  /** The code-to-prefix table that the switch implements. */
  const PrefixTable: map<string, string> :=
    map["b" := "bL", "c" := "cL", "sc" := "scL", "s" := "siL", "i" := "iL", "l" := "slL",
        "f" := "fL", "d" := "dL", "ld" := "ldL", "ull" := "ullL", "ul" := "ulL",
        "ui" := "uiL", "us" := "usL", "uc" := "ucL", "C" := "CL"]

  /** The prefix when the pattern does not match (line 81). */
  const InitialPrefix: string := "siL"

  /** The keywords of line 114. */
  const PrimitiveKeywords: seq<string> := ["int", "char", "bool", "float", "double", "long", "short", "void", "string"]

  // ----- the pattern of line 83 -----

  /** The pattern matches with its `m` at index `p` and alternative number `alt`. */
  ghost predicate PatternAt(v: string, p: nat, alt: nat) {
    p + 1 < |v| && v[p] == 'm' && IsAsciiLetter(v[p + 1]) &&
    alt < |Codes| && OccursAt(v, Codes[alt] + "_", p + 2)
  }

  /** The first alternative, from number `k` on, followed by `_` at index `q`. */
  function FirstAlternative(v: string, q: nat, k: nat): (r: Option<nat>)
    requires k <= |Codes|
    ensures r.Some? ==> k <= r.value < |Codes| && OccursAt(v, Codes[r.value] + "_", q)
    ensures forall j: nat :: k <= j < |Codes| && OccursAt(v, Codes[j] + "_", q) ==> r.Some? && r.value <= j
    decreases |Codes| - k
  {
    if k == |Codes| then None
    else if OccursAt(v, Codes[k] + "_", q) then Some(k)
    else FirstAlternative(v, q, k + 1)
  }

  /** The alternative taken when the `m` of the pattern is at index `p`. */
  function AlternativeAt(v: string, p: nat): (r: Option<nat>)
    ensures r.Some? ==> PatternAt(v, p, r.value)
    ensures forall alt: nat :: PatternAt(v, p, alt) ==> r.Some? && r.value <= alt
  {
    if p + 1 < |v| && v[p] == 'm' && IsAsciiLetter(v[p + 1]) then FirstAlternative(v, p + 2, 0) else None
  }

  /** Where the pattern matched: the index of its `m` and the alternative taken. */
  datatype PrefixHit = PrefixHit(at: nat, alt: nat)

  /** `.*` is greedy, so the engine tries the `m` positions from the right; the first
      one, below `n`, at which some alternative fits wins. */
  function LastHitBelow(v: string, n: nat): (r: Option<PrefixHit>)
    requires n <= |v|
    ensures r.Some? ==> r.value.at < n && PatternAt(v, r.value.at, r.value.alt)
    ensures forall p: nat, alt: nat :: p < n && PatternAt(v, p, alt) ==>
              r.Some? && p <= r.value.at && (p == r.value.at ==> r.value.alt <= alt)
  {
    if n == 0 then None
    else
      match AlternativeAt(v, n - 1)
      case Some(alt) => Some(PrefixHit(n - 1, alt))
      case None => LastHitBelow(v, n - 1)
  }

  function FindHit(v: string): Option<PrefixHit> {
    LastHitBelow(v, |v|)
  }

  /** `prefixMatch[1]`: the captured code, or `None` when the pattern does not match. */
  function PrefixMatch(v: string): (r: Option<string>)
    ensures r.Some? ==> r.value in PrefixTable
  {
    match FindHit(v)
    case None => None
    case Some(h) =>
      CodesInTable(h.alt);
      Some(Codes[h.alt])
  }

  lemma CodesInTable(k: nat)
    requires k < |Codes|
    ensures Codes[k] in PrefixTable
  {
  }

  /** The hit is the one a backtracking engine reports: no match puts its `m`
      further right, and at that `m` no earlier alternative fits. */
  lemma FindHitIsRightmostFirst(v: string)
    ensures FindHit(v).None? <==> forall p: nat, alt: nat :: !PatternAt(v, p, alt)
    ensures FindHit(v).Some? ==>
      var h := FindHit(v).value;
      PatternAt(v, h.at, h.alt) &&
      forall p: nat, alt: nat :: PatternAt(v, p, alt) ==> p <= h.at && (p == h.at ==> h.alt <= alt)
  {
    forall p: nat, alt: nat | PatternAt(v, p, alt) ensures p < |v| { }
  }

  // ----- the switch of lines 87-109 -----

  /** The switch on the captured code, with the `mcS_` test of its `'s'` case. */
  function SwitchPrefix(code: string, v: string): string {
    match code
    case "b" => "bL"
    case "c" => "cL"
    case "sc" => "scL"
    case "s" => if StartsWith(v, "mcS_") then "SL" else "siL"
    case "i" => "iL"
    case "l" => "slL"
    case "f" => "fL"
    case "d" => "dL"
    case "ld" => "ldL"
    case "ull" => "ullL"
    case "ul" => "ulL"
    case "ui" => "uiL"
    case "us" => "usL"
    case "uc" => "ucL"
    case "C" => "CL"
    case _ => "CL"
  }

  /** Every code the pattern can capture has a case of its own, so the `default`
      branch is never taken, and the switch is the table apart from the `mcS_` test. */
  lemma SwitchIsTable(code: string, v: string)
    requires code in PrefixTable
    ensures code in Codes
    ensures SwitchPrefix(code, v) == if code == "s" && StartsWith(v, "mcS_") then "SL" else PrefixTable[code]
  {
    if |code| == 1 {
      SwitchShort(code, v);
    } else {
      SwitchLong(code, v);
    }
  }

  lemma SwitchShort(code: string, v: string)
    requires code in {"b", "c", "s", "i", "l", "f", "d", "C"}
    ensures SwitchPrefix(code, v) == if code == "s" && StartsWith(v, "mcS_") then "SL" else PrefixTable[code]
  {
  }

  lemma SwitchLong(code: string, v: string)
    requires code in {"sc", "ld", "ull", "ul", "ui", "us", "uc"}
    ensures SwitchPrefix(code, v) == PrefixTable[code]
  {
  }

  /** `['int', …, 'string'].some(t => dataType.includes(t))`. */
  predicate HasPrimitiveKeyword(dataType: string) {
    exists k :: 0 <= k < |PrimitiveKeywords| && Includes(dataType, PrimitiveKeywords[k])
  }

  /** `paramPrefix` after the switch (lines 81-110). */
  function SwitchedPrefix(varName: string): (r: string)
    ensures PrefixMatch(varName).None? ==> r == InitialPrefix
    ensures PrefixMatch(varName).Some? && !StartsWith(varName, "mcS_") ==> r == PrefixTable[PrefixMatch(varName).value]
  {
    match PrefixMatch(varName)
    case None => InitialPrefix
    case Some(code) =>
      SwitchIsTable(code, varName);
      SwitchPrefix(code, varName)
  }

  /** `paramPrefix` after line 123: a name that starts with `mcS_` gets `SL`,
      otherwise the table entry of the captured code or `siL` without one; a pointer
      gets `p` in front. The keyword test of line 114 changes nothing. */
  function ParamPrefix(varName: string, dataType: string, isPointer: bool): (r: string)
    ensures r == (if isPointer then "p" else "") +
                 (if StartsWith(varName, "mcS_") then "SL"
                  else match PrefixMatch(varName)
                       case None => InitialPrefix
                       case Some(code) => PrefixTable[code])
  {
    var fromSwitch := SwitchedPrefix(varName);
    var overridden :=
      if StartsWith(varName, "mcS_") || !HasPrimitiveKeyword(dataType) then
        (if StartsWith(varName, "mcS_") then "SL" else fromSwitch)
      else fromSwitch;
    if isPointer then "p" + overridden else overridden
  }

  /** A pointer's prefix is a non-pointer's with `p` in front. */
  lemma PointerPrefix(varName: string, dataType: string)
    ensures ParamPrefix(varName, dataType, true) == "p" + ParamPrefix(varName, dataType, false)
    ensures StartsWith(ParamPrefix(varName, dataType, true), "p")
  {
  }

  // ----- the names of the examples -----

  lemma Mismatch(v: string, sub: string, q: nat, k: nat)
    requires k < |sub| && q + k < |v| && v[q + k] != sub[k]
    ensures !OccursAt(v, sub, q)
  {
  }

  /** `mb_Active` has no code between its letter and `_`, so it keeps the initial prefix. */
  lemma ExampleBool()
    ensures PrefixMatch("mb_Active").None?
    ensures ParamPrefix("mb_Active", "bool", false) == "siL"
  {
    var v := "mb_Active";
    assert forall k :: 1 <= k < |v| ==> v[k] != 'm';
    forall p: nat, alt: nat | PatternAt(v, p, alt) ensures false {
      assert p == 0;
      Mismatch(v, Codes[alt] + "_", 2, 0);
    }
    FindHitIsRightmostFirst(v);
    assert v[1] != "mcS_"[1];
  }

  /** `mcsi_` is not a code the pattern knows (`si` is not an alternative). */
  lemma ExampleInt()
    ensures ParamPrefix("mcsi_Magi", "int", false) == "siL"
  {
    var v := "mcsi_Magi";
    assert forall k :: 1 <= k < |v| ==> v[k] != 'm';
    forall p: nat, alt: nat | PatternAt(v, p, alt) ensures false {
      assert p == 0;
      var sub := Codes[alt] + "_";
      if sub[0] != 's' { Mismatch(v, sub, 2, 0); } else { Mismatch(v, sub, 2, 1); }
    }
    FindHitIsRightmostFirst(v);
    assert v[2] != "mcS_"[2];
  }

  /** A structure name gets `SL` whatever the pattern finds. */
  lemma ExampleStructure()
    ensures ParamPrefix("mcS_Response", "SResponse", false) == "SL"
  {
  }

  /** `meC_` captures `C`; the pointer adds `p`. */
  lemma ExamplePointer()
    ensures PrefixMatch("pmeC_Hello") == Some("C")
    ensures ParamPrefix("pmeC_Hello", "CHello", true) == "pCL"
  {
    var v := "pmeC_Hello";
    assert forall k :: 0 <= k < |v| && k != 1 ==> v[k] != 'm';
    forall p: nat, alt: nat | PatternAt(v, p, alt) ensures p == 1 && alt == 14 {
      if alt < 14 { Mismatch(v, Codes[alt] + "_", 3, 0); }
    }
    assert PatternAt(v, 1, 14);
    FindHitIsRightmostFirst(v);
    assert v[1] != "mcS_"[1];
  }

  /** `ull` is tried first and fails; `ul` fits before `l` is reached. */
  lemma ExampleUnsignedLong()
    ensures PrefixMatch("mcul_Count") == Some("ul")
    ensures ParamPrefix("mcul_Count", "unsigned long", false) == "ulL"
  {
    var v := "mcul_Count";
    assert forall k :: 1 <= k < |v| ==> v[k] != 'm';
    Mismatch(v, Codes[0] + "_", 2, 2);
    assert PatternAt(v, 0, 1);
    forall p: nat, alt: nat | PatternAt(v, p, alt) ensures p == 0 && alt >= 1 { }
    FindHitIsRightmostFirst(v);
    assert v[2] != "mcS_"[2];
  }
}
