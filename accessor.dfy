/** What src/getterSetter.js does with one trimmed, non-blank line (the body of the
    `forEach` callback, lines 36-209): match it, validate it, name it, and either
    report one warning or produce the out-of-line accessors, the inline accessors
    and the initialization line. */
module AccessorGenerator {
  import opened JsText
  import opened DeclarationPattern
  import opened ParameterPrefix

  // ----- warnings -----

  /** The diagnostics the generator pushes, one per rejected line. */
  datatype Warning =
    | InvalidDeclaration(line: string)
    | InvalidArraySize(line: string)
    | CouldNotParse(line: string)
    | UnsupportedArrayType(line: string)
    | NoDeclarations

  /** The warning sign U+26A0 U+FE0F and a space, at the head of every message. */
  const Alert: string := "\U{26A0}\U{FE0F} "

  function Message(w: Warning): string {
    match w
    case InvalidDeclaration(line) => Alert + "Invalid declaration: \"" + line + "\""
    case InvalidArraySize(line) => Alert + "Invalid array size in \"" + line + "\""
    case CouldNotParse(line) => Alert + "Could not parse declaration: \"" + line + "\""
    case UnsupportedArrayType(line) => Alert + "Unsupported array type: \"" + line + "\""
    case NoDeclarations => Alert + "Please enter at least one variable declaration."
  }

  // ----- names -----

  /** `extractMeaningfulName`: the part of the name after its last `_`, or the
      whole name when it has none. */
  function ExtractMeaningfulName(varName: string): (r: string)
    ensures '_' !in r
    ensures '_' in varName ==>
      |r| < |varName| && r == varName[|varName| - |r|..] && varName[|varName| - |r| - 1] == '_'
    ensures '_' !in varName ==> r == varName
  {
    var lastUnderscore := LastIndexOf(varName, '_');
    if lastUnderscore != -1 then
      var r := varName[lastUnderscore + 1..];
      assert forall j :: 0 <= j < |r| ==> r[j] == varName[lastUnderscore + 1 + j];
      r
    else varName
  }

  /** The meaningful name has no `_` left, so extracting it again changes nothing. */
  lemma MeaningfulNameIdempotent(varName: string)
    ensures ExtractMeaningfulName(ExtractMeaningfulName(varName)) == ExtractMeaningfulName(varName)
  {
  }

  /** Line 78: `charAt(0).toUpperCase() + slice(1)`. */
  function Capitalize(s: string): (r: string)
    ensures |r| == |s|
    ensures s != [] ==> r[0] == UpperCase(s[0]) && r[1..] == s[1..]
    ensures AllWordChars(s) ==> AllWordChars(r)
  {
    if s == [] then [] else [UpperCase(s[0])] + s[1..]
  }

  // ----- array size -----

  /** `Number(arraySize)` for a string of decimal digits. */
  function DecimalValue(s: string): nat
    requires forall k :: 0 <= k < |s| ==> IsDigit(s[k])
  {
    if s == [] then 0
    else
      var last := s[|s| - 1];
      assert IsDigit(last);
      10 * DecimalValue(s[..|s| - 1]) + (last as int - '0' as int)
  }

  /** A digit string denotes zero exactly when every digit is `0` (`[0]`, `[00]`, ...). */
  lemma {:induction false} DecimalValueZero(s: string)
    requires forall k :: 0 <= k < |s| ==> IsDigit(s[k])
    ensures DecimalValue(s) == 0 <==> forall k :: 0 <= k < |s| ==> s[k] == '0'
  {
    if s != [] {
      var init := s[..|s| - 1];
      DecimalValueZero(init);
      assert forall k :: 0 <= k < |init| ==> init[k] == s[k];
    }
  }

  // ----- classification (lines 39-75) -----

  /** A declaration that passed validation. */
  datatype Decl = Decl(dataType: string, varName: string, isArray: bool, isPointer: bool)

  datatype Classified = Declared(decl: Decl) | Rejected(warning: Warning)

  /** Lines 39-42: both patterns are searched; neither matching is an invalid
      declaration; otherwise the array match wins. */
  function Classify(line: string): Classified {
    var standardMatch := Match(line, Standard);
    var arrayMatch := Match(line, Array);
    if standardMatch.None? && arrayMatch.None? then Rejected(InvalidDeclaration(line))
    else if arrayMatch.Some? then Validate(line, arrayMatch.value, true)
    else Validate(line, standardMatch.value, false)
  }

  /** Lines 52-64 on the groups `cap` of the chosen match: an array size of zero is
      rejected. The `isNaN` test of line 57 is left out: group 3 is a digit string,
      never NaN. */
  function Validate(line: string, cap: Captures, isArray: bool): Classified
    requires forall k :: 0 <= k < |cap.sizeText| ==> IsDigit(cap.sizeText[k])
  {
    var dataType := Trim(cap.typeText);
    var varName := Trim(cap.identText);
    DigitsTrimmed(cap.sizeText);
    var arraySize := Trim(cap.sizeText);
    if isArray && (arraySize == [] || DecimalValue(arraySize) == 0) then
      Rejected(InvalidArraySize(line))
    else StripPointer(line, dataType, varName, isArray)
  }

  /** Lines 66-75: a `*` in the type or at the head of the name makes a pointer and
      is removed (once, from each); an empty remainder cannot be parsed. */
  function StripPointer(line: string, dataType: string, varName: string, isArray: bool): Classified {
    var isPointer := Includes(dataType, "*") || StartsWith(varName, "*");
    var dataType' := if isPointer then Trim(ReplaceFirst(dataType, '*')) else dataType;
    var varName' := if isPointer then Trim(ReplaceFirst(varName, '*')) else varName;
    if dataType' == [] || varName' == [] then Rejected(CouldNotParse(line))
    else Declared(Decl(dataType', varName', isArray, isPointer))
  }

  lemma DigitsTrimmed(s: string)
    requires forall k :: 0 <= k < |s| ==> IsDigit(s[k])
    ensures Trim(s) == s
  {
    if s != [] {
      WordNotSpace(s[0]);
      WordNotSpace(s[|s| - 1]);
      TrimUnchanged(s);
    }
  }

  /** Group 1 has no `*`, so `dataType.includes('*')` is always false. */
  lemma TypeHasNoStar(s: string)
    requires TypeShaped(s)
    ensures !Includes(s, "*") && '*' !in s
  {
    IncludesMeaning(s, "*");
  }

  /** Group 1 trims to itself. */
  lemma TypeTrimmed(s: string)
    requires TypeShaped(s)
    ensures Trim(s) == s
  {
    WordNotSpace(s[0]);
    WordNotSpace(s[|s| - 1]);
    TrimUnchanged(s);
  }

  /** Group 2 without a star trims to itself and does not start with `*`. */
  lemma PlainNameTrimmed(s: string)
    requires |s| > 0 && s[0] != '*' && AllWordChars(s)
    ensures Trim(s) == s && !StartsWith(s, "*")
  {
    WordNotSpace(s[0]);
    WordNotSpace(s[|s| - 1]);
    TrimUnchanged(s);
    assert s[..1][0] == s[0];
  }

  /** Group 2 with its star trims to itself. */
  lemma StarredNameTrimmed(s: string, n: nat)
    requires StarredName(s, n)
    ensures Trim(s) == s && StartsWith(s, "*")
  {
    WordNotSpace(s[|s| - 1]);
    TrimUnchanged(s);
  }

  /** The star and the white space after it removed, group 2 leaves its word. */
  lemma StarredNameStripped(s: string, n: nat)
    requires StarredName(s, n)
    ensures Trim(ReplaceFirst(s, '*')) == s[n..]
  {
    ReplaceFirstAtHead(s, '*');
    WordNotSpace(s[n]);
    WordNotSpace(s[|s| - 1]);
    TrimAfterSpacesFrom(s, 1, n);
  }

  /** Where the word of a starred group 2 begins is determined by the group. */
  lemma StarredNameUnique(s: string, n: nat, m: nat)
    requires StarredName(s, n) && StarredName(s, m)
    ensures n == m
  {
    if n < m {
      WordNotSpace(s[n]);
    } else if m < n {
      WordNotSpace(s[m]);
    }
  }

  /** The name chosen from group 2 of a match: its word, after any star. */
  ghost function NameOf(ident: string): string
    requires IdentShaped(ident)
  {
    if ident[0] == '*' then
      var n: nat :| StarredName(ident, n);
      ident[n..]
    else ident
  }

  lemma NameOfStarred(ident: string, n: nat)
    requires StarredName(ident, n)
    ensures NameOf(ident) == ident[n..]
  {
    forall m: nat | StarredName(ident, m) ensures m == n {
      StarredNameUnique(ident, m, n);
    }
  }

  /** `Validate` apart from its size check. */
  lemma ValidateSize(line: string, cap: Captures, isArray: bool)
    requires forall k :: 0 <= k < |cap.sizeText| ==> IsDigit(cap.sizeText[k])
    requires isArray ==> cap.sizeText != []
    ensures Validate(line, cap, isArray) ==
      if isArray && DecimalValue(cap.sizeText) == 0 then Rejected(InvalidArraySize(line))
      else StripPointer(line, Trim(cap.typeText), Trim(cap.identText), isArray)
  {
    DigitsTrimmed(cap.sizeText);
  }

  /** `StripPointer` when the type is clean and the name has no star. */
  lemma StripPlain(line: string, dataType: string, varName: string, isArray: bool)
    requires dataType != [] && !Includes(dataType, "*")
    requires varName != [] && !StartsWith(varName, "*")
    ensures StripPointer(line, dataType, varName, isArray) == Declared(Decl(dataType, varName, isArray, false))
  {
  }

  /** `StripPointer` when the type is clean and the name starts with a star. */
  lemma StripStarred(line: string, dataType: string, varName: string, isArray: bool, name: string)
    requires dataType != [] && Trim(dataType) == dataType && '*' !in dataType
    requires StartsWith(varName, "*") && name != [] && Trim(ReplaceFirst(varName, '*')) == name
    ensures StripPointer(line, dataType, varName, isArray) == Declared(Decl(dataType, name, isArray, true))
  {
    assert ReplaceFirst(dataType, '*') == dataType;
  }

  /** `Validate` on the groups of a match: the declaration has group 1 as its type
      and the word of group 2 as its name, and is a pointer exactly when group 2
      starts with `*`; the `Could not parse` branch (lines 72-75) is never taken. */
  lemma ValidateCaptures(line: string, cap: Captures, form: Form)
    requires TypeShaped(cap.typeText) && IdentShaped(cap.identText) && SizeShaped(form, cap.sizeText)
    ensures Validate(line, cap, form == Array) ==
      if form == Array && DecimalValue(cap.sizeText) == 0 then Rejected(InvalidArraySize(line))
      else Declared(Decl(cap.typeText, NameOf(cap.identText), form == Array, cap.identText[0] == '*'))
  {
    StripCaptures(line, cap.typeText, cap.identText, form == Array);
    ValidateSize(line, cap, form == Array);
  }

  /** Lines 66-75 on the trimmed groups 1 and 2 of a match. */
  lemma StripCaptures(line: string, typeText: string, ident: string, isArray: bool)
    requires TypeShaped(typeText) && IdentShaped(ident)
    ensures StripPointer(line, Trim(typeText), Trim(ident), isArray) ==
            Declared(Decl(typeText, NameOf(ident), isArray, ident[0] == '*'))
  {
    TypeTrimmed(typeText);
    TypeHasNoStar(typeText);
    if ident[0] == '*' {
      var n: nat :| StarredName(ident, n);
      StarredNameTrimmed(ident, n);
      StarredNameStripped(ident, n);
      NameOfStarred(ident, n);
      StripStarred(line, typeText, ident, isArray, ident[n..]);
    } else {
      PlainNameTrimmed(ident);
      StripPlain(line, typeText, ident, isArray);
    }
  }

  /** `Classify` in terms of the groups of the two matches. */
  lemma ClassifyFromCaptures(line: string)
    ensures var standardMatch, arrayMatch := Match(line, Standard), Match(line, Array);
      Classify(line) ==
        if standardMatch.None? && arrayMatch.None? then Rejected(InvalidDeclaration(line))
        else
          var cap := if arrayMatch.Some? then arrayMatch.value else standardMatch.value;
          if arrayMatch.Some? && DecimalValue(cap.sizeText) == 0 then Rejected(InvalidArraySize(line))
          else Declared(Decl(cap.typeText, NameOf(cap.identText), arrayMatch.Some?, cap.identText[0] == '*'))
  {
    if Match(line, Array).Some? {
      ValidateCaptures(line, Match(line, Array).value, Array);
    } else if Match(line, Standard).Some? {
      ValidateCaptures(line, Match(line, Standard).value, Standard);
    }
  }

  /** An array match whose size is all zeros is rejected. */
  lemma ClassifyZeroSize(line: string)
    requires Match(line, Array).Some?
    requires var size := Match(line, Array).value.sizeText;
      forall k :: 0 <= k < |size| ==> size[k] == '0'
    ensures Classify(line) == Rejected(InvalidArraySize(line))
  {
    var cap := Match(line, Array).value;
    DigitsTrimmed(cap.sizeText);
    DecimalValueZero(cap.sizeText);
    assert Classify(line) == Validate(line, cap, true);
  }

  /** The name chosen from group 2 is a non-empty run of word characters. */
  lemma NameOfShape(ident: string)
    requires IdentShaped(ident)
    ensures |NameOf(ident)| > 0 && AllWordChars(NameOf(ident))
  {
    if ident[0] == '*' {
      var n: nat :| StarredName(ident, n);
      NameOfStarred(ident, n);
      assert forall k :: 0 <= k < |ident[n..]| ==> ident[n..][k] == ident[n + k];
    }
  }

  /** What any accepted declaration looks like: a non-empty name of word
      characters, and a type of word and white-space characters without `*`; and
      no line is rejected as `Could not parse`. */
  lemma ClassifyShape(line: string)
    ensures Classify(line).Rejected? ==> !Classify(line).warning.CouldNotParse?
    ensures Classify(line).Declared? ==>
      var d := Classify(line).decl;
      |d.varName| > 0 && AllWordChars(d.varName) && TypeShaped(d.dataType) && '*' !in d.dataType
  {
    ClassifyFromCaptures(line);
    var standardMatch, arrayMatch := Match(line, Standard), Match(line, Array);
    if !(standardMatch.None? && arrayMatch.None?) {
      var cap := if arrayMatch.Some? then arrayMatch.value else standardMatch.value;
      TypeHasNoStar(cap.typeText);
      NameOfShape(cap.identText);
    }
  }

  /** The two kinds of rejection, in terms of the patterns: no match of either
      pattern anywhere gives `Invalid declaration`; an array match with a size of
      zero gives `Invalid array size`; nothing else is rejected here. */
  lemma ClassifyRejects(line: string)
    ensures Classify(line) == Rejected(InvalidDeclaration(line)) <==>
      (forall i: nat :: !MatchesAt(line, Standard, i)) && (forall i: nat :: !MatchesAt(line, Array, i))
    ensures Classify(line) == Rejected(InvalidArraySize(line)) <==>
      Match(line, Array).Some? &&
      forall k :: 0 <= k < |Match(line, Array).value.sizeText| ==> Match(line, Array).value.sizeText[k] == '0'
    ensures Classify(line).Rejected? ==> Classify(line).warning in {InvalidDeclaration(line), InvalidArraySize(line)}
    ensures Classify(line).Declared? ==> Classify(line).decl.isArray == Match(line, Array).Some?
  {
    ClassifyFromCaptures(line);
    FindIsLeftmostGreedy(line, Standard);
    FindIsLeftmostGreedy(line, Array);
    if Match(line, Array).Some? {
      DecimalValueZero(Match(line, Array).value.sizeText);
    }
  }

  // ----- categories and type kinds -----

  /** The kind of a non-array, non-pointer type, by the first substring test that
      holds, in the order of lines 165-186 and 199-209 (so `Point` is numeric: it
      contains `int`). */
  datatype TypeKind = BoolType | CharType | StringType | NumericType | OtherType

  predicate IsNumeric(dataType: string) {
    Includes(dataType, "int") || Includes(dataType, "short") || Includes(dataType, "long") ||
    Includes(dataType, "double") || Includes(dataType, "float")
  }

  function KindOf(dataType: string): TypeKind {
    if Includes(dataType, "bool") then BoolType
    else if Includes(dataType, "char") then CharType
    else if Includes(dataType, "string") then StringType
    else if IsNumeric(dataType) then NumericType
    else OtherType
  }

  /** The getter's return type per kind: the keyword, or the declared type. */
  function GetterType(kind: TypeKind, dataType: string): string {
    match kind
    case BoolType => "bool"
    case CharType => "char"
    case StringType => "string"
    case _ => dataType
  }

  /** The setter's parameter type per kind: by value for `bool` and `char`, by
      reference (`&`) for the rest. */
  function SetterParamType(kind: TypeKind, dataType: string): string {
    match kind
    case BoolType => "bool "
    case CharType => "char "
    case StringType => "string &"
    case _ => dataType + " &"
  }

  /** The initial value per kind. */
  function InitValue(kind: TypeKind): string {
    match kind
    case BoolType => "false"
    case CharType => "'\\0'"
    case StringType => "\"\""
    case NumericType => "0"
    case OtherType => "{}"
  }

  /** Which branch of lines 126-209 a declaration takes: the pointer test comes
      first, so a pointer array is a pointer. */
  datatype Category = PointerVar | CharArray | UnsupportedArray | NormalVar(kind: TypeKind)

  function CategoryOf(d: Decl): Category {
    if d.isPointer then PointerVar
    else if d.isArray then (if Includes(d.dataType, "char") then CharArray else UnsupportedArray)
    else NormalVar(KindOf(d.dataType))
  }

  // ----- templates -----

  /** A getter line: `<lead><type> <scope>mcfn_get<Cap>() {return <name>; }`. */
  function GetterLine(lead: string, returnType: string, scope: string, cap: string, varName: string): string {
    lead + returnType + " " + scope + "mcfn_get" + cap + "() {return " + varName + "; }\n"
  }

  /** A setter line that assigns its parameter `<prefix>_<Cap>` to the member. */
  function SetterLine(lead: string, scope: string, cap: string, paramType: string, prefix: string, varName: string): string {
    lead + "void " + scope + "mcfn_set" + cap + "(" + paramType + prefix + "_" + cap + ") {" +
    varName + " = " + prefix + "_" + cap + "; }\n\n"
  }

  /** A setter line that copies `pscL_<Cap>` into the buffer with `strcpy`. */
  function StrcpySetterLine(lead: string, scope: string, cap: string, dataType: string, varName: string): string {
    lead + "void " + scope + "mcfn_set" + cap + "(" + dataType + "* pscL_" + cap + ") {strcpy(" +
    varName + ", pscL_" + cap + "); }\n\n"
  }

  function Comment(varName: string): string {
    "// For " + varName + "\n"
  }

  /** Lines 127-129. */
  function PointerCode(dataType: string, varName: string, cap: string, prefix: string): string {
    Comment(varName) + GetterLine("", dataType + "*", "", cap, varName) +
    SetterLine("", "", cap, dataType + "* ", prefix, varName)
  }

  /** Lines 133-135 (the class name is used as written, untrimmed). */
  function PointerInline(dataType: string, varName: string, cap: string, prefix: string, className: string): string {
    Comment(varName) + GetterLine("inline\n ", dataType + "*", className + "::", cap, varName) +
    SetterLine("inline\n ", className + "::", cap, dataType + "* ", prefix, varName)
  }

  /** Lines 143-145. */
  function CharArrayCode(dataType: string, varName: string, cap: string): string {
    Comment(varName) + GetterLine("", dataType + "*", "", cap, varName) +
    StrcpySetterLine("", "", cap, dataType, varName)
  }

  /** Lines 149-151. */
  function CharArrayInline(dataType: string, varName: string, cap: string, className: string): string {
    Comment(varName) + GetterLine("inline\n ", dataType + "*", className + "::", cap, varName) +
    StrcpySetterLine("inline\n ", className + "::", cap, dataType, varName)
  }

  /** `genBlock` (lines 160-189): one shared template, with `inline\n` before each
      signature and `<className>::` before `mcfn_` when `inline` is asked for and the
      class name is not empty. */
  function GenBlock(dataType: string, varName: string, cap: string, prefix: string, inline: bool, className: string): string {
    var inlineText := if inline && className != [] then "inline\n" else "";
    var scope := if inline && className != [] then className + "::" else "";
    var block := Comment(varName);
    if Includes(dataType, "bool") then
      block + GetterLine(inlineText, "bool", scope, cap, varName) +
      SetterLine(inlineText, scope, cap, "bool ", prefix, varName)
    else if Includes(dataType, "char") then
      block + GetterLine(inlineText, "char", scope, cap, varName) +
      SetterLine(inlineText, scope, cap, "char ", prefix, varName)
    else if Includes(dataType, "string") then
      block + GetterLine(inlineText, "string", scope, cap, varName) +
      SetterLine(inlineText, scope, cap, "string &", prefix, varName)
    else if IsNumeric(dataType) then
      block + GetterLine(inlineText, dataType, scope, cap, varName) +
      SetterLine(inlineText, scope, cap, dataType + " &", prefix, varName)
    else
      block + GetterLine(inlineText, dataType, scope, cap, varName) +
      SetterLine(inlineText, scope, cap, dataType + " &", prefix, varName)
  }

  /** Line 130. */
  function PointerInit(varName: string): string {
    varName + " = nullptr;\n"
  }

  /** Line 146. */
  function CharArrayInit(varName: string): string {
    "memset(" + varName + ", 0x00, sizeof(" + varName + "));\n"
  }

  /** The initializer chain of lines 198-209. */
  function Initialization(varName: string, dataType: string, isPointer: bool): string {
    if isPointer then varName + " = nullptr;\n"
    else if Includes(dataType, "bool") then varName + " = false;\n"
    else if Includes(dataType, "char") then varName + " = '\\0';\n"
    else if Includes(dataType, "string") then varName + " = \"\";\n"
    else if IsNumeric(dataType) then varName + " = 0;\n"
    else varName + " = {};\n"
  }

  // ----- one line -----

  /** What one declaration adds to the three outputs. */
  datatype Fragment = Fragment(normal: string, inline: string, init: string)

  datatype LineOutcome = Warned(warning: Warning) | Emitted(fragment: Fragment)

  /** Lines 77-209 for an accepted declaration. */
  function Emit(line: string, d: Decl, className: string): LineOutcome {
    var meaningfulName := ExtractMeaningfulName(d.varName);
    var capitalized := Capitalize(meaningfulName);
    var paramPrefix := ParamPrefix(d.varName, d.dataType, d.isPointer);
    if d.isPointer then
      Emitted(Fragment(
        PointerCode(d.dataType, d.varName, capitalized, paramPrefix),
        if Trim(className) != [] then PointerInline(d.dataType, d.varName, capitalized, paramPrefix, className) else "",
        PointerInit(d.varName)))
    else if d.isArray then
      if Includes(d.dataType, "char") then
        Emitted(Fragment(
          CharArrayCode(d.dataType, d.varName, capitalized),
          if Trim(className) != [] then CharArrayInline(d.dataType, d.varName, capitalized, className) else "",
          CharArrayInit(d.varName)))
      else Warned(UnsupportedArrayType(line))
    else
      Emitted(Fragment(
        GenBlock(d.dataType, d.varName, capitalized, paramPrefix, false, className),
        GenBlock(d.dataType, d.varName, capitalized, paramPrefix, true, className),
        Initialization(d.varName, d.dataType, d.isPointer)))
  }

  /** The `forEach` callback for one trimmed line. */
  function ProcessLine(line: string, className: string): LineOutcome {
    match Classify(line)
    case Rejected(w) => Warned(w)
    case Declared(d) => Emit(line, d, className)
  }

  // ----- properties of one line -----

  /** The five branches of `genBlock` are one template indexed by the type kind:
      the getter's return type and the setter's parameter type come from the kind. */
  lemma GenBlockByKind(dataType: string, varName: string, cap: string, prefix: string, inline: bool, className: string)
    ensures var marked := inline && className != [];
      var lead := if marked then "inline\n" else "";
      var scope := if marked then className + "::" else "";
      var kind := KindOf(dataType);
      GenBlock(dataType, varName, cap, prefix, inline, className) ==
        Comment(varName) + GetterLine(lead, GetterType(kind, dataType), scope, cap, varName) +
        SetterLine(lead, scope, cap, SetterParamType(kind, dataType), prefix, varName)
  {
  }

  /** With an empty class name the inline block is the out-of-line block. */
  lemma InlineBlockWithoutClass(dataType: string, varName: string, cap: string, prefix: string)
    ensures GenBlock(dataType, varName, cap, prefix, true, "") == GenBlock(dataType, varName, cap, prefix, false, "")
  {
  }

  /** The initializer of a normal variable is its kind's initial value. */
  lemma InitializationByKind(varName: string, dataType: string)
    ensures Initialization(varName, dataType, false) == varName + " = " + InitValue(KindOf(dataType)) + ";\n"
  {
  }

  /** What each category of accepted declaration produces: a pointer (array or not)
      gets `<type>*` accessors with a `p` prefix and `nullptr`; a char array gets
      `<type>*` accessors with `strcpy` and `memset`; any other array only the
      `Unsupported array type` warning; a normal variable the `genBlock` pair and
      its kind's initial value. */
  lemma ProcessLineByCategory(line: string, className: string)
    requires Classify(line).Declared?
    ensures var d := Classify(line).decl;
      var cap := Capitalize(ExtractMeaningfulName(d.varName));
      var prefix := ParamPrefix(d.varName, d.dataType, false);
      var scoped := Trim(className) != [];
      ProcessLine(line, className) ==
        match CategoryOf(d)
        case PointerVar =>
          Emitted(Fragment(PointerCode(d.dataType, d.varName, cap, "p" + prefix),
                           if scoped then PointerInline(d.dataType, d.varName, cap, "p" + prefix, className) else "",
                           PointerInit(d.varName)))
        case CharArray =>
          Emitted(Fragment(CharArrayCode(d.dataType, d.varName, cap),
                           if scoped then CharArrayInline(d.dataType, d.varName, cap, className) else "",
                           CharArrayInit(d.varName)))
        case UnsupportedArray => Warned(UnsupportedArrayType(line))
        case NormalVar(kind) =>
          Emitted(Fragment(GenBlock(d.dataType, d.varName, cap, prefix, false, className),
                           GenBlock(d.dataType, d.varName, cap, prefix, true, className),
                           d.varName + " = " + InitValue(kind) + ";\n"))
  {
    var d := Classify(line).decl;
    PointerPrefix(d.varName, d.dataType);
    InitializationByKind(d.varName, d.dataType);
  }

  lemma StartsWithAppend(a: string, b: string, c: string)
    ensures StartsWith(a + b + c, a)
  {
    assert a + b + c == a + (b + c);
    assert (a + (b + c))[..|a|] == a;
  }

  /** A text that is a line with its terminator holds one `\n`, at its end. */
  lemma OneLine(body: string)
    requires '\n' !in body
    ensures var s := body + "\n"; s[|s| - 1] == '\n' && CountChar(s, '\n') == 1
  {
    CountCharAbsent(body, '\n');
    CountCharAppend(body, "\n", '\n');
  }

  lemma WordsHaveNoNewline(s: string)
    requires AllWordChars(s)
    ensures '\n' !in s
  {
    forall k | 0 <= k < |s| ensures s[k] != '\n' {
      assert IsWordChar(s[k]);
    }
  }

  /** Every fragment's out-of-line code starts with the `// For <name>` comment. */
  lemma FragmentComment(line: string, className: string)
    requires ProcessLine(line, className).Emitted?
    ensures var d, f := Classify(line).decl, ProcessLine(line, className).fragment;
      StartsWith(f.normal, Comment(d.varName))
  {
    ProcessLineByCategory(line, className);
    var d := Classify(line).decl;
    var v, dt := d.varName, d.dataType;
    var cap := Capitalize(ExtractMeaningfulName(v));
    var prefix := ParamPrefix(v, dt, false);
    match CategoryOf(d)
    case PointerVar =>
      StartsWithAppend(Comment(v), GetterLine("", dt + "*", "", cap, v), SetterLine("", "", cap, dt + "* ", "p" + prefix, v));
    case CharArray =>
      StartsWithAppend(Comment(v), GetterLine("", dt + "*", "", cap, v), StrcpySetterLine("", "", cap, dt, v));
    case NormalVar(kind) =>
      GenBlockByKind(dt, v, cap, prefix, false, className);
      StartsWithAppend(Comment(v), GetterLine("", GetterType(kind, dt), "", cap, v),
                       SetterLine("", "", cap, SetterParamType(kind, dt), prefix, v));
  }

  /** Which initializer an emitted fragment carries. */
  lemma EmitInit(line: string, d: Decl, className: string)
    requires Emit(line, d, className).Emitted?
    ensures Emit(line, d, className).fragment.init ==
      if d.isPointer then PointerInit(d.varName)
      else if d.isArray then CharArrayInit(d.varName)
      else Initialization(d.varName, d.dataType, false)
  {
  }

  /** Each initializer is one line, for a name without `\n`. */
  lemma InitIsOneLine(d: Decl)
    requires '\n' !in d.varName
    ensures var init := if d.isPointer then PointerInit(d.varName)
                        else if d.isArray then CharArrayInit(d.varName)
                        else Initialization(d.varName, d.dataType, false);
      |init| > 0 && init[|init| - 1] == '\n' && CountChar(init, '\n') == 1
  {
    var v := d.varName;
    if d.isPointer {
      assert PointerInit(v) == (v + " = nullptr;") + "\n";
      OneLine(v + " = nullptr;");
    } else if d.isArray {
      var body := "memset(" + v + ", 0x00, sizeof(" + v + "));";
      assert CharArrayInit(v) == body + "\n";
      OneLine(body);
    } else {
      InitializationByKind(v, d.dataType);
      var value := InitValue(KindOf(d.dataType));
      assert '\n' !in value;
      assert Initialization(v, d.dataType, false) == (v + " = " + value + ";") + "\n";
      OneLine(v + " = " + value + ";");
    }
  }

  /** Every fragment adds exactly one initialization line. */
  lemma FragmentInit(line: string, className: string)
    requires ProcessLine(line, className).Emitted?
    ensures var f := ProcessLine(line, className).fragment;
      |f.init| > 0 && f.init[|f.init| - 1] == '\n' && CountChar(f.init, '\n') == 1
  {
    ClassifyShape(line);
    var d := Classify(line).decl;
    WordsHaveNoNewline(d.varName);
    EmitInit(line, d, className);
    InitIsOneLine(d);
  }
}
