/** Single lines run through the per-line step, end to end: the pattern match, the
    validation, the prefix and the emitted text. */
module DeclarationScenarios {
  import opened JsText
  import opened DeclarationPattern
  import opened ParameterPrefix
  import opened AccessorGenerator

  const IntLine: string := "int mcsi_Magi;"

  lemma IntLineMatches()
    ensures IsMatch(IntLine, Standard, 0, 3, 4, 4, 13, 13)
  {
    var t := IntLine;
    assert TypeGroupAt(t, 0, 3) by {
      forall j | 0 <= j < 3 ensures IsWordChar(t[j]) { }
    }
    assert SpacesAt(t, 3, 4);
    assert IdentGroupAt(t, 4, 4, 13) by {
      forall j | 4 <= j < 13 ensures IsWordChar(t[j]) { }
    }
    assert TailAt(t, Standard, 13, 13);
  }

  lemma IntLineNoArrayMatch()
    ensures forall i: nat :: !MatchesAt(IntLine, Array, i)
  {
    assert forall k :: 0 <= k < |IntLine| ==> IntLine[k] != '[';
    NoSizedBracket(IntLine);
  }

  lemma IntLineGroups()
    ensures IntLine[0..3] == "int" && IntLine[4..13] == "mcsi_Magi"
  {
    var t := IntLine;
    assert |t[4..13]| == 9;
    forall k | 0 <= k < 9 ensures t[4..13][k] == "mcsi_Magi"[k] {
      assert t[4..13][k] == t[4 + k];
    }
  }

  lemma IntLineCaptures(t: string)
    requires t == IntLine
    ensures Match(t, Standard) == Some(Captures("int", "mcsi_Magi", ""))
  {
    IntLineMatches();
    FindIsLeftmostGreedy(t, Standard);
    assert MatchesAt(t, Standard, 0);
    var sp := Find(t, Standard).value;
    assert sp.start == 0;
    assert IsMatch(t, Standard, 0, sp.typeEnd, sp.identStart, sp.nameStart, sp.identEnd, sp.sizeEnd);
    assert sp.identStart == 4;
    IntLineGroups();
  }

  /** `int mcsi_Magi;` is a standard declaration of a numeric member. */
  lemma ClassifyIntExample()
    ensures Classify(IntLine) == Declared(Decl("int", "mcsi_Magi", false, false))
  {
    IntLineNoArrayMatch();
    FindIsLeftmostGreedy(IntLine, Array);
    IntLineCaptures(IntLine);
    ClassifyFromCaptures(IntLine);
  }

  lemma MagiName()
    ensures ExtractMeaningfulName("mcsi_Magi") == "Magi"
  {
    var v := "mcsi_Magi";
    assert v[4] == '_';
    assert forall j :: 4 < j < 9 ==> v[j] != '_';
    assert LastIndexOf(v, '_') == 4;
    forall k | 0 <= k < 4 ensures v[5..][k] == "Magi"[k] {
      assert v[5..][k] == v[5 + k];
    }
  }

  lemma IntKind()
    ensures KindOf("int") == NumericType
  {
    assert !Includes("int", "bool") && !Includes("int", "char") && !Includes("int", "string");
    assert Includes("int", "int");
  }

  lemma IntEmit(line: string)
    ensures var v := "mcsi_Magi";
      Emit(line, Decl("int", v, false, false), "") ==
        Emitted(Fragment(GenBlock("int", v, "Magi", "siL", false, ""), GenBlock("int", v, "Magi", "siL", true, ""),
                         Initialization(v, "int", false)))
  {
    ExampleInt();
    MagiName();
    assert Capitalize("Magi") == "Magi";
  }

  /** Its accessors: the block for a numeric member with the meaningful name `Magi`
      and the `siL` prefix (the pattern finds no code in `mcsi_`), the same block for
      the inline output, and the initializer `0`. */
  lemma IntExample()
    ensures KindOf("int") == NumericType
    ensures var block := GenBlock("int", "mcsi_Magi", "Magi", "siL", false, "");
      ProcessLine(IntLine, "") == Emitted(Fragment(block, block, "mcsi_Magi = 0;\n"))
  {
    ClassifyIntExample();
    IntEmit(IntLine);
    IntKind();
    InlineBlockWithoutClass("int", "mcsi_Magi", "Magi", "siL");
    IntInit();
  }

  lemma IntInit()
    ensures Initialization("mcsi_Magi", "int", false) == "mcsi_Magi = 0;\n"
  {
    IntKind();
    InitializationByKind("mcsi_Magi", "int");
    assert "mcsi_Magi" + " = " + "0" + ";\n" == "mcsi_Magi = 0;\n";
  }

  const NoSizeLine: string := "char buf[];"

  /** A standard match ends with a word character and `;`. */
  lemma StandardMatchEnd(t: string, i: nat, a: nat, b: nat, w: nat, c: nat, d: nat)
    requires IsMatch(t, Standard, i, a, b, w, c, d)
    ensures 0 < c < |t| && t[c] == ';' && IsWordChar(t[c - 1])
  {
    assert IdentGroupAt(t, b, w, c) && TailAt(t, Standard, c, d);
  }

  /** A line in which no `;` follows a word character has no standard match. */
  lemma NoWordBeforeSemicolon(t: string)
    requires forall c :: 0 < c < |t| && t[c] == ';' ==> !IsWordChar(t[c - 1])
    ensures forall i: nat :: !MatchesAt(t, Standard, i)
  {
    forall i: nat | MatchesAt(t, Standard, i) ensures false {
      var a: nat, b: nat, w: nat, c: nat, d: nat :| IsMatch(t, Standard, i, a, b, w, c, d);
      StandardMatchEnd(t, i, a, b, w, c, d);
    }
  }

  /** An array match has a `[` followed by a digit. */
  lemma ArrayMatchSize(t: string, i: nat, a: nat, b: nat, w: nat, c: nat, d: nat)
    requires IsMatch(t, Array, i, a, b, w, c, d)
    ensures c + 1 < |t| && t[c] == '[' && IsDigit(t[c + 1])
  {
    assert TailAt(t, Array, c, d);
  }

  /** A line in which no `[` is followed by a digit has no array match. */
  lemma NoSizedBracket(t: string)
    requires forall c :: 0 <= c < |t| - 1 && t[c] == '[' ==> !IsDigit(t[c + 1])
    ensures forall i: nat :: !MatchesAt(t, Array, i)
  {
    forall i: nat | MatchesAt(t, Array, i) ensures false {
      var a: nat, b: nat, w: nat, c: nat, d: nat :| IsMatch(t, Array, i, a, b, w, c, d);
      ArrayMatchSize(t, i, a, b, w, c, d);
    }
  }

  lemma NoSizeLineNoStandardMatch()
    ensures forall i: nat :: !MatchesAt(NoSizeLine, Standard, i)
  {
    var t := NoSizeLine;
    assert forall c :: 0 <= c < |t| && c != 10 ==> t[c] != ';';
    assert !IsWordChar(t[9]);
    NoWordBeforeSemicolon(t);
  }

  lemma NoSizeLineNoArrayMatch()
    ensures forall i: nat :: !MatchesAt(NoSizeLine, Array, i)
  {
    var t := NoSizeLine;
    assert forall c :: 0 <= c < |t| && c != 8 ==> t[c] != '[';
    assert !IsDigit(t[9]);
    NoSizedBracket(t);
  }

  /** `char buf[];` has no size, so neither pattern matches (group 3 needs a digit)
      and the line is an invalid declaration, not an invalid array size. */
  lemma NoSizeExample()
    ensures Classify(NoSizeLine) == Rejected(InvalidDeclaration(NoSizeLine))
  {
    NoSizeLineNoStandardMatch();
    NoSizeLineNoArrayMatch();
    ClassifyRejects(NoSizeLine);
  }

  const ZeroSizeLine: string := "char mcac_Buf[0];"

  lemma ZeroSizeLineMatches()
    ensures IsMatch(ZeroSizeLine, Array, 0, 4, 5, 5, 13, 15)
  {
    var t := ZeroSizeLine;
    assert TypeGroupAt(t, 0, 4) by {
      forall j | 0 <= j < 4 ensures IsWordChar(t[j]) { }
    }
    assert SpacesAt(t, 4, 5);
    assert IdentGroupAt(t, 5, 5, 13) by {
      forall j | 5 <= j < 13 ensures IsWordChar(t[j]) { }
    }
    assert TailAt(t, Array, 13, 15);
  }

  lemma ZeroSizeLineFind(t: string)
    requires t == ZeroSizeLine
    ensures Find(t, Array).Some?
    ensures var sp := Find(t, Array).value;
      sp.start == 0 && sp.identEnd == 13 && sp.sizeEnd == 15
    ensures t[14] == '0'
  {
    ZeroSizeLineMatches();
    FindIsLeftmostGreedy(t, Array);
    assert MatchesAt(t, Array, 0);
  }

  lemma ZeroSizeCapture(t: string)
    requires t == ZeroSizeLine
    ensures Match(t, Array).Some? && Match(t, Array).value.sizeText == "0"
  {
    ZeroSizeLineFind(t);
    var cap := Match(t, Array).value;
    assert cap.sizeText == t[14..15];
    assert |cap.sizeText| == 1 && cap.sizeText[0] == t[14];
  }

  lemma ZeroSizeClassified(t: string)
    requires t == ZeroSizeLine
    ensures Classify(t) == Rejected(InvalidArraySize(t))
  {
    ZeroSizeCapture(t);
    ClassifyZeroSize(t);
  }

  /** `char mcac_Buf[0];` matches the array form with a size of zero. */
  lemma ZeroSizeExample()
    ensures Classify(ZeroSizeLine) == Rejected(InvalidArraySize(ZeroSizeLine))
  {
    ZeroSizeClassified(ZeroSizeLine);
  }
}
