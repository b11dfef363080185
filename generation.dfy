/** `generateGettersSetters` of src/getterSetter.js (lines 22-224): split the input
    into lines, drop the blank ones, run the per-line step of `AccessorGenerator`
    over them in order while appending to three texts and a warning list, then
    decide what the inline output shows. The React state the function writes is
    modelled as its returned value. */
module GetterSetterGeneration {
  import opened JsText
  import opened AccessorGenerator

  // ----- the lines (line 23) -----

  /** `.filter(line => line.trim() !== '')`. */
  function NonBlank(lines: seq<string>): seq<string> {
    if lines == [] then []
    else if Trim(lines[0]) != [] then [lines[0]] + NonBlank(lines[1..])
    else NonBlank(lines[1..])
  }

  /** Every line kept is non-blank. */
  lemma {:induction false} NonBlankKept(lines: seq<string>)
    ensures forall k :: 0 <= k < |NonBlank(lines)| ==> Trim(NonBlank(lines)[k]) != []
  {
    if lines != [] {
      NonBlankKept(lines[1..]);
      var rest := NonBlank(lines[1..]);
      if Trim(lines[0]) != [] {
        var r := [lines[0]] + rest;
        assert NonBlank(lines) == r;
        forall k | 0 <= k < |r| ensures Trim(r[k]) != [] {
          if k > 0 {
            assert r[k] == rest[k - 1];
          }
        }
      }
    }
  }

  /** Nothing is left exactly when every line is white space. */
  lemma {:induction false} NonBlankEmpty(lines: seq<string>)
    ensures NonBlank(lines) == [] <==> forall k :: 0 <= k < |lines| ==> AllSpaces(lines[k])
  {
    if lines != [] {
      var rest := lines[1..];
      NonBlankEmpty(rest);
      assert NonBlank(lines) == [] <==> Trim(lines[0]) == [] && NonBlank(rest) == [];
      assert forall k :: 1 <= k < |lines| ==> lines[k] == rest[k - 1];
      assert forall k :: 0 <= k < |rest| ==> rest[k] == lines[k + 1];
    }
  }

  /** The filter keeps each line on its own and in order: filtering a concatenation
      is concatenating the filtered parts, and a single line is kept exactly when
      it is not blank. */
  lemma {:induction false} NonBlankAppend(a: seq<string>, b: seq<string>)
    ensures NonBlank(a + b) == NonBlank(a) + NonBlank(b)
  {
    if a == [] {
      assert a + b == b;
    } else {
      assert (a + b)[0] == a[0];
      assert (a + b)[1..] == a[1..] + b;
      NonBlankAppend(a[1..], b);
    }
  }

  lemma NonBlankSingle(line: string)
    ensures NonBlank([line]) == if Trim(line) != [] then [line] else []
  {
    assert [line][1..] == [];
  }

  /** The lines the loop visits. */
  function InputLines(inputText: string): seq<string> {
    NonBlank(Split(inputText, '\n'))
  }

  // ----- the accumulation (lines 24-27, 35-210) -----

  /** `normalCode`, `inlineResult`, `initializationResult` and `warningList`. */
  datatype Accumulated = Accumulated(normalCode: string, inlineResult: string,
                                     initializationResult: string, warningList: seq<string>)

  const Start: Accumulated := Accumulated("", "", "", [])

  /** What one turn of the `forEach` callback appends. */
  function Append(acc: Accumulated, outcome: LineOutcome): Accumulated {
    match outcome
    case Warned(w) => acc.(warningList := acc.warningList + [Message(w)])
    case Emitted(f) =>
      acc.(normalCode := acc.normalCode + f.normal, inlineResult := acc.inlineResult + f.inline,
           initializationResult := acc.initializationResult + f.init)
  }

  /** The callback's appends over a sequence of outcomes, from the start. */
  function Accumulate(outcomes: seq<LineOutcome>): Accumulated {
    if outcomes == [] then Start
    else Append(Accumulate(outcomes[..|outcomes| - 1]), outcomes[|outcomes| - 1])
  }

  // ----- the per-line contributions -----

  /** What each line produced, in order; a line that trims to nothing produces
      nothing (line 37). */
  function Outcomes(lines: seq<string>, className: string): seq<LineOutcome> {
    if lines == [] then []
    else
      var before := Outcomes(lines[..|lines| - 1], className);
      var trimmedLine := Trim(lines[|lines| - 1]);
      if trimmedLine == [] then before else before + [ProcessLine(trimmedLine, className)]
  }

  /** Every line that survived the filter produces exactly one outcome, so the test
      of line 37 never fires on them. */
  lemma {:induction false} OutcomePerLine(lines: seq<string>, className: string)
    requires forall k :: 0 <= k < |lines| ==> Trim(lines[k]) != []
    ensures |Outcomes(lines, className)| == |lines|
  {
    if lines != [] {
      var init := lines[..|lines| - 1];
      assert forall k :: 0 <= k < |init| ==> init[k] == lines[k];
      OutcomePerLine(init, className);
    }
  }

  /** The warnings among the outcomes, in order. */
  function WarningsOf(outcomes: seq<LineOutcome>): seq<string> {
    if outcomes == [] then []
    else
      var last := outcomes[|outcomes| - 1];
      WarningsOf(outcomes[..|outcomes| - 1]) + (if last.Warned? then [Message(last.warning)] else [])
  }

  /** The fragments among the outcomes, in order. */
  function FragmentsOf(outcomes: seq<LineOutcome>): seq<Fragment> {
    if outcomes == [] then []
    else
      var last := outcomes[|outcomes| - 1];
      FragmentsOf(outcomes[..|outcomes| - 1]) + (if last.Emitted? then [last.fragment] else [])
  }

  function NormalOf(fragments: seq<Fragment>): string {
    if fragments == [] then "" else NormalOf(fragments[..|fragments| - 1]) + fragments[|fragments| - 1].normal
  }

  function InlineOf(fragments: seq<Fragment>): string {
    if fragments == [] then "" else InlineOf(fragments[..|fragments| - 1]) + fragments[|fragments| - 1].inline
  }

  function InitOf(fragments: seq<Fragment>): string {
    if fragments == [] then "" else InitOf(fragments[..|fragments| - 1]) + fragments[|fragments| - 1].init
  }

  // ----- the result (lines 29-32, 214-224) -----

  /** What the function leaves behind: with no non-blank line only the warning list
      is set (the other outputs keep their earlier values); otherwise all of them. */
  datatype Outputs =
    | NoInput(warnings: seq<string>)
    | Produced(generatedCode: string, inlineCode: string, initCode: string,
               warnings: seq<string>, showInlineWarning: bool)

  /** The outputs the function is meant to produce. */
  function GeneratedOutputs(inputText: string, className: string): Outputs {
    var lines := InputLines(inputText);
    if lines == [] then NoInput([Message(NoDeclarations)])
    else
      var acc := Accumulate(Outcomes(lines, className));
      var noClass := Trim(className) == [];
      Produced(acc.normalCode, if noClass then "" else acc.inlineResult, acc.initializationResult,
               acc.warningList, noClass)
  }

  /** `generateGettersSetters`: the loop over the non-blank lines. */
  method GenerateGettersSetters(inputText: string, className: string) returns (r: Outputs)
    ensures r == GeneratedOutputs(inputText, className)
  {
    var lines := NonBlank(Split(inputText, '\n'));
    var normalCode, inlineResult, initializationResult := "", "", "";
    var warningList: seq<string> := [];
    if |lines| == 0 {
      return NoInput([Message(NoDeclarations)]);
    }
    var i := 0;
    while i < |lines|
      invariant 0 <= i <= |lines|
      invariant Accumulated(normalCode, inlineResult, initializationResult, warningList) ==
                Accumulate(Outcomes(lines[..i], className))
    {
      var trimmedLine := Trim(lines[i]);
      if trimmedLine != [] {
        var outcome := ProcessLine(trimmedLine, className);
        AccumulateStep(lines, i, className);
        match outcome
        case Warned(w) =>
          warningList := warningList + [Message(w)];
        case Emitted(f) =>
          normalCode := normalCode + f.normal;
          inlineResult := inlineResult + f.inline;
          initializationResult := initializationResult + f.init;
      } else {
        OutcomesOfPrefix(lines, i, className);
      }
      i := i + 1;
    }
    assert lines[..i] == lines;
    if Trim(className) == [] {
      r := Produced(normalCode, "", initializationResult, warningList, true);
    } else {
      r := Produced(normalCode, inlineResult, initializationResult, warningList, false);
    }
  }

  // ----- properties -----

  /** The no-input warning appears exactly when the input is nothing but white space
      (line breaks included), and then it is the only output. */
  lemma NoInputExactly(inputText: string, className: string)
    ensures GeneratedOutputs(inputText, className).NoInput? <==> AllSpaces(inputText)
    ensures GeneratedOutputs(inputText, className).NoInput? ==>
      GeneratedOutputs(inputText, className).warnings == [Message(NoDeclarations)]
  {
    var parts := Split(inputText, '\n');
    JoinAllSpaces(parts, '\n');
    NonBlankEmpty(parts);
  }

  lemma PrefixOfLast<T>(s: seq<T>, x: T)
    ensures (s + [x])[..|s|] == s && (s + [x])[|s|] == x
  {
  }

  /** One more line adds its outcome at the end, unless it is blank. */
  lemma OutcomesOfPrefix(lines: seq<string>, i: nat, className: string)
    requires i < |lines|
    ensures var before := Outcomes(lines[..i], className);
      Outcomes(lines[..i + 1], className) ==
        if Trim(lines[i]) == [] then before else before + [ProcessLine(Trim(lines[i]), className)]
  {
    assert lines[..i + 1][..i] == lines[..i];
  }

  lemma AccumulateStep(lines: seq<string>, i: nat, className: string)
    requires i < |lines| && Trim(lines[i]) != []
    ensures Accumulate(Outcomes(lines[..i + 1], className)) ==
            Append(Accumulate(Outcomes(lines[..i], className)), ProcessLine(Trim(lines[i]), className))
  {
    OutcomesOfPrefix(lines, i, className);
    PrefixOfLast(Outcomes(lines[..i], className), ProcessLine(Trim(lines[i]), className));
  }

  /** The fold is the per-line contributions joined in line order: code, inline code
      and initializers from the fragments, the warnings from the rejected lines. */
  lemma {:induction false} AccumulateByLine(outcomes: seq<LineOutcome>)
    ensures var fragments := FragmentsOf(outcomes);
      Accumulate(outcomes) ==
        Accumulated(NormalOf(fragments), InlineOf(fragments), InitOf(fragments), WarningsOf(outcomes))
  {
    if outcomes != [] {
      var before := outcomes[..|outcomes| - 1];
      var o := outcomes[|outcomes| - 1];
      AccumulateByLine(before);
      if o.Emitted? {
        TextsOfAppend(FragmentsOf(before), o.fragment);
      } else {
        assert FragmentsOf(outcomes) == FragmentsOf(before);
      }
    }
  }

  /** One more fragment adds its three texts at the ends. */
  lemma TextsOfAppend(fragments: seq<Fragment>, f: Fragment)
    ensures NormalOf(fragments + [f]) == NormalOf(fragments) + f.normal
    ensures InlineOf(fragments + [f]) == InlineOf(fragments) + f.inline
    ensures InitOf(fragments + [f]) == InitOf(fragments) + f.init
  {
    PrefixOfLast(fragments, f);
  }

  /** Every line yields one warning or one fragment. */
  lemma {:induction false} OneEntryPerOutcome(outcomes: seq<LineOutcome>)
    ensures |WarningsOf(outcomes)| + |FragmentsOf(outcomes)| == |outcomes|
  {
    if outcomes != [] {
      OneEntryPerOutcome(outcomes[..|outcomes| - 1]);
    }
  }

  /** Each fragment adds one initialization line, so the initialization output has
      as many lines as accessor blocks were generated. */
  lemma {:induction false} InitLinesPerFragment(lines: seq<string>, className: string)
    ensures var fragments := FragmentsOf(Outcomes(lines, className));
      CountChar(InitOf(fragments), '\n') == |fragments|
  {
    if lines != [] {
      var init := lines[..|lines| - 1];
      InitLinesPerFragment(init, className);
      var line := Trim(lines[|lines| - 1]);
      if line != [] {
        var o := ProcessLine(line, className);
        if o.Emitted? {
          FragmentInit(line, className);
        }
        InitLinesStep(Outcomes(init, className), o);
      }
    }
  }

  /** One more outcome keeps one initialization line per fragment. */
  lemma InitLinesStep(before: seq<LineOutcome>, o: LineOutcome)
    requires CountChar(InitOf(FragmentsOf(before)), '\n') == |FragmentsOf(before)|
    requires o.Emitted? ==> CountChar(o.fragment.init, '\n') == 1
    ensures CountChar(InitOf(FragmentsOf(before + [o])), '\n') == |FragmentsOf(before + [o])|
  {
    PrefixOfLast(before, o);
    var frags := FragmentsOf(before);
    if o.Emitted? {
      TextsOfAppend(frags, o.fragment);
      CountCharAppend(InitOf(frags), o.fragment.init, '\n');
    } else {
      assert FragmentsOf(before + [o]) == frags;
    }
  }

  /** The outputs of an input with some non-blank line: the line-order contributions;
      as many warnings and blocks together as non-blank lines; one initializer line
      per block; and the inline code shown only when the class name is not blank. */
  lemma ProducedOutputs(inputText: string, className: string)
    requires GeneratedOutputs(inputText, className).Produced?
    ensures var lines := InputLines(inputText);
      var outcomes := Outcomes(lines, className);
      var fragments := FragmentsOf(outcomes);
      var out := GeneratedOutputs(inputText, className);
      out.generatedCode == NormalOf(fragments) &&
      out.initCode == InitOf(fragments) &&
      out.warnings == WarningsOf(outcomes) &&
      out.inlineCode == (if Trim(className) == [] then "" else InlineOf(fragments)) &&
      (out.showInlineWarning <==> Trim(className) == []) &&
      |out.warnings| + |fragments| == |lines| &&
      CountChar(out.initCode, '\n') == |fragments|
  {
    var lines := InputLines(inputText);
    NonBlankKept(Split(inputText, '\n'));
    OutcomePerLine(lines, className);
    AccumulateByLine(Outcomes(lines, className));
    OneEntryPerOutcome(Outcomes(lines, className));
    InitLinesPerFragment(lines, className);
  }
}
