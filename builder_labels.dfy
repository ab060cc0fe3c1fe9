/** Where the labels of a decoded program point. The label pass of `BCodeBuilder::fromString`
    numbers every line it reads, blank ones included, while the decoding pass numbers only the
    lines that hold tokens; with a blank line before a label the two disagree. */
module BuilderLabels {
  import opened Wrappers
  import opened Words
  import opened Exceptions
  import opened BCode
  import opened Decoder

  // ---------------------------------------------------------------------------------------------
  // Non-empty lines
  // ---------------------------------------------------------------------------------------------

  /** Dropping the blank lines of two texts one after the other. */
  lemma {:induction false} NonBlankAppend(a: seq<string>, b: seq<string>)
    ensures NonBlank(a + b) == NonBlank(a) + NonBlank(b)
    decreases |b|
  {
    if b == [] {
      assert a + b == a;
    } else {
      var c := a + b;
      var front := b[..|b| - 1];
      assert c[..|c| - 1] == a + front;
      NonBlankAppend(a, front);
      assert b[..|b| - 1] == front;
    }
  }

  /** A non-empty line `k` is the `|NonBlank(lines[..k])|`-th non-empty line. */
  lemma NonBlankIndex(lines: seq<string>, k: nat)
    requires k < |lines| && lines[k] != ""
    ensures |NonBlank(lines[..k])| < |NonBlank(lines)|
    ensures NonBlank(lines)[|NonBlank(lines[..k])|] == lines[k]
  {
    assert lines == lines[..k] + [lines[k]] + lines[k + 1..];
    NonBlankAppend(lines[..k] + [lines[k]], lines[k + 1..]);
    NonBlankAppend(lines[..k], [lines[k]]);
    assert [lines[k]][..0] == [];
  }

  // ---------------------------------------------------------------------------------------------
  // The first token of a line
  // ---------------------------------------------------------------------------------------------

  /** The first piece of `s[start..]` runs from `start` to the first delimiter at or after `j`. */
  lemma {:induction false} FirstPiece(s: string, d: char, start: nat, j: nat)
    requires start <= j <= |s| && start < |s| && Scanned(s, d, start, j)
    ensures SplitFrom(s, d, start, j) != []
    ensures j - start <= |SplitFrom(s, d, start, j)[0]| <= |s| - start
    ensures SplitFrom(s, d, start, j)[0] == s[start..start + |SplitFrom(s, d, start, j)[0]|]
    decreases |s| - j
  {
    if j < |s| && s[j] != d {
      FirstPiece(s, d, start, j + 1);
    }
  }

  /** Reading characters that are not delimiters does not change the pieces. */
  lemma {:induction false} ScanAhead(s: string, d: char, start: nat, j: nat, k: nat)
    requires start <= j <= k <= |s| && Scanned(s, d, start, k)
    ensures SplitFrom(s, d, start, j) == SplitFrom(s, d, start, k)
    decreases k - j
  {
    if j < k {
      ScanAhead(s, d, start, j + 1, k);
    }
  }

  /** The first token of a line that starts with a word without spaces starts with that word. */
  lemma FirstToken(line: string, word: string)
    requires StartsWith(line, word) && word != [] && forall i | 0 <= i < |word| :: word[i] != ' '
    ensures Tokens(line) != [] && StartsWith(Tokens(line)[0], word)
  {
    assert Scanned(line, ' ', 0, |word|) by {
      forall i | 0 <= i < |word|
        ensures line[i] != ' '
      {
        assert line[i] == line[..|word|][i];
      }
    }
    ScanAhead(line, ' ', 0, 0, |word|);
    FirstPiece(line, ' ', 0, |word|);
    var t := Tokens(line)[0];
    assert t == line[..|t|];
    assert t[..|word|] == line[..|word|];
  }

  /** Two words without spaces, separated by one space, are two tokens. */
  lemma TwoTokens(a: string, b: string)
    requires a != [] && b != []
    requires forall i | 0 <= i < |a| :: a[i] != ' '
    requires forall i | 0 <= i < |b| :: b[i] != ' '
    ensures Tokens(a + " " + b) == [a, b]
  {
    var s := a + " " + b;
    var n := |a|;
    assert Scanned(s, ' ', 0, n) by {
      forall i | 0 <= i < n
        ensures s[i] != ' '
      {
        assert s[i] == a[i];
      }
    }
    ScanAhead(s, ' ', 0, 0, n);
    assert s[n] == ' ';
    assert Scanned(s, ' ', n + 1, |s|) by {
      forall i | n + 1 <= i < |s|
        ensures s[i] != ' '
      {
        assert s[i] == b[i - n - 1];
      }
    }
    ScanAhead(s, ' ', n + 1, n + 1, |s|);
    assert s[..n] == a;
    assert s[n + 1..] == b;
  }

  /** Of all mnemonics only `LABEL` starts with `LABEL` and only `FUNCTION` with `FUNCTION`. */
  lemma MnemonicPrefixes(op: Opcode)
    ensures StartsWith(Mnemonic(op), "LABEL") ==> op == OpLabel
    ensures StartsWith(Mnemonic(op), "FUNCTION") ==> op == OpFunction
  {
    var m := Mnemonic(op);
    if StartsWith(m, "LABEL") {
      assert m[0] == 'L' && m[1] == 'A' && m[2] == 'B';
    }
    if StartsWith(m, "FUNCTION") {
      assert m[0] == 'F' && m[1] == 'U';
    }
  }

  /** A line that defines a label and decodes is a `LABEL` or `FUNCTION` instruction. */
  lemma DefiningLineDecodes(line: string, name: string, cp: Word, labels: map<string, Word>)
    requires Defines(line, name)
    requires FromTokens(Tokens(line), cp, labels).Success?
    ensures FromTokens(Tokens(line), cp, labels).value.BLabel? || FromTokens(Tokens(line), cp, labels).value.BFunction?
  {
    DefinesKeyword(line, name);
    var word := if StartsWith(line, "LABEL") then "LABEL" else "FUNCTION";
    FirstToken(line, word);
    FromTokensMnemonic(Tokens(line), cp, labels);
    KeywordOpcode(Tokens(line)[0], word, FromTokens(Tokens(line), cp, labels).value);
  }

  lemma DefinesKeyword(line: string, name: string)
    requires Defines(line, name)
    ensures StartsWith(line, "LABEL") || StartsWith(line, "FUNCTION")
  {
  }

  lemma KeywordOpcode(token: string, word: string, b: BInstruction)
    requires (word == "LABEL" || word == "FUNCTION") && StartsWith(token, word) && token == Mnemonic(OpcodeOf(b))
    ensures b.BLabel? || b.BFunction?
  {
    MnemonicPrefixes(OpcodeOf(b));
  }

  // ---------------------------------------------------------------------------------------------
  // Targets
  // ---------------------------------------------------------------------------------------------

  /** The target of an assembled jump or closure is the index of the label its second token names. */
  lemma AssembleTarget(op: Opcode, tokens: seq<string>, cp: Word, labels: map<string, Word>)
    requires Assemble(op, tokens, cp, labels).Success? && HasTarget(Assemble(op, tokens, cp, labels).value)
    ensures |tokens| > 1 && tokens[1] in labels && Target(Assemble(op, tokens, cp, labels).value) == labels[tokens[1]]
  {
  }

  /** The target of a decoded jump or closure is the index of the label its second token names. */
  lemma TargetIsLabel(tokens: seq<string>, cp: Word, labels: map<string, Word>)
    requires FromTokens(tokens, cp, labels).Success? && HasTarget(FromTokens(tokens, cp, labels).value)
    ensures |tokens| > 1 && tokens[1] in labels && Target(FromTokens(tokens, cp, labels).value) == labels[tokens[1]]
  {
    FromTokensMnemonic(tokens, cp, labels);
    var op := OpcodeOf(FromTokens(tokens, cp, labels).value);
    MnemonicIsNamed(op);
    FromTokensNamed(tokens, cp, labels, op);
    AssembleTarget(op, tokens, cp, labels);
  }

  // ---------------------------------------------------------------------------------------------
  // Decoded programs
  // ---------------------------------------------------------------------------------------------

  /** A decoded program has one instruction per non-empty line, and instruction `i` has code
      pointer `i`. */
  lemma DecodedCps(lines: seq<string>, corrected: bool)
    requires DecodeLines(lines, corrected).Success?
    ensures |DecodeLines(lines, corrected).value| == |NonBlank(lines)|
    ensures forall i | 0 <= i < |DecodeLines(lines, corrected).value| ::
              DecodeLines(lines, corrected).value[i].cp == Wrap(i)
  {
    var labels := LabelsUpTo(lines, |lines|, corrected).value;
    var code := DecodeLines(lines, corrected).value;
    DecodePerLine(lines, |lines|, Decoding(labels));
    assert lines[..|lines|] == lines;
    forall i | 0 <= i < |code|
      ensures code[i].cp == Wrap(i)
    {
      assert Decoding(labels)(Tokens(NonBlank(lines)[i]), Wrap(i)) == Success(code[i]);
    }
  }

  /** The label pass over the example program, with labels numbered as written or corrected. */
  lemma ExampleLabels(corrected: bool)
    ensures LabelsUpTo(["", "LABEL a", "GOTO a"], 3, corrected) == Success(map["a" := if corrected then 0 else 1])
  {
    var lines := ["", "LABEL a", "GOTO a"];
    assert LabelDefinition(lines[0]) == Success(None);
    assert StartsWith(lines[1], "LABEL") by {
      assert lines[1][..5] == "LABEL";
    }
    assert lines[1][6..] == "a";
    assert LabelDefinition(lines[1]) == Success(Some("a"));
    assert !StartsWith(lines[2], "LABEL") && !StartsWith(lines[2], "FUNCTION") by {
      assert lines[2][0] == 'G';
    }
    assert LabelDefinition(lines[2]) == Success(None);
    assert lines[..1] == [""];
    assert NonBlank(lines[..1]) == [];
    assert LabelIndex(lines, 1, corrected) == if corrected then 0 else 1;
    assert LabelsUpTo(lines, 1, corrected) == Success(map[]);
    assert LabelsUpTo(lines, 2, corrected) == Success(map["a" := if corrected then 0 else 1]);
  }

  /** The decoding pass over the example program, with the label at `target`. */
  lemma ExampleDecodes(target: Word)
    ensures DecodeUpTo(["", "LABEL a", "GOTO a"], 3, Decoding(map["a" := target])) ==
              Success([BLabel(0), BGoto(1, target)])
  {
    var lines := ["", "LABEL a", "GOTO a"];
    var decode := Decoding(map["a" := target]);
    assert Tokens(lines[0]) == [];
    assert DecodeUpTo(lines, 1, decode) == Success([]);
    ExampleLines(target);
    assert lines[1] == "LABEL a" && lines[2] == "GOTO a";
    DecodeStep(lines, 1, decode, [], BLabel(0));
    assert [] + [BLabel(0)] == [BLabel(0)];
    assert |[BLabel(0)]| == 1;
    DecodeStep(lines, 2, decode, [BLabel(0)], BGoto(1, target));
    assert [BLabel(0)] + [BGoto(1, target)] == [BLabel(0), BGoto(1, target)];
  }

  /** The two non-empty lines of the example program, decoded at indices 0 and 1. */
  lemma ExampleLines(target: Word)
    ensures Decoding(map["a" := target])(Tokens("LABEL a"), Wrap(0)) == Success(BLabel(0))
    ensures Decoding(map["a" := target])(Tokens("GOTO a"), Wrap(1)) == Success(BGoto(1, target))
  {
    var labels := map["a" := target];
    TwoTokens("LABEL", "a");
    TwoTokens("GOTO", "a");
    assert "LABEL a" == "LABEL" + " " + "a";
    assert "GOTO a" == "GOTO" + " " + "a";
    LabelLine(labels);
    GotoLine(labels);
  }

  lemma LabelLine(labels: map<string, Word>)
    ensures FromTokens(["LABEL", "a"], 0, labels) == Success(BLabel(0))
  {
    MnemonicIsNamed(OpLabel);
    FromTokensNamed(["LABEL", "a"], 0, labels, OpLabel);
  }

  lemma GotoLine(labels: map<string, Word>)
    requires "a" in labels
    ensures FromTokens(["GOTO", "a"], 1, labels) == Success(BGoto(1, labels["a"]))
  {
    MnemonicIsNamed(OpGoto);
    FromTokensNamed(["GOTO", "a"], 1, labels, OpGoto);
  }

  /** One more non-empty line that decodes. */
  lemma DecodeStep(lines: seq<string>, n: nat, decode: LineDecoder, code: seq<BInstruction>, i: BInstruction)
    requires n < |lines| && DecodeUpTo(lines, n, decode) == Success(code)
    requires Tokens(lines[n]) != [] && decode(Tokens(lines[n]), Wrap(|code|)) == Success(i)
    ensures DecodeUpTo(lines, n + 1, decode) == Success(code + [i])
  {
  }

  /** As written: after a blank line, a label's index is one past its instruction. The `GOTO` at
      index 1 jumps to itself instead of to the label at index 0. */
  lemma BlankLineShiftsLabels()
    ensures DecodeLines(["", "LABEL a", "GOTO a"], false) == Success([BLabel(0), BGoto(1, 1)])
  {
    ExampleLabels(false);
    ExampleDecodes(1);
  }

  /** Numbering the labels by non-empty lines sends the same `GOTO` to the label. */
  lemma BlankLineCorrected()
    ensures DecodeLines(["", "LABEL a", "GOTO a"], true) == Success([BLabel(0), BGoto(1, 0)])
  {
    ExampleLabels(true);
    ExampleDecodes(0);
  }

  /** With labels numbered by non-empty lines, every jump and closure of a decoded program points
      at a `LABEL` or `FUNCTION` instruction of that program. */
  lemma CorrectedTargetsAreLabels(lines: seq<string>)
    requires DecodeLines(lines, true).Success?
    requires |NonBlank(lines)| < WORD_MODULUS
    ensures forall i | 0 <= i < |DecodeLines(lines, true).value| && HasTarget(DecodeLines(lines, true).value[i]) ::
              var code := DecodeLines(lines, true).value;
              Target(code[i]) < |code| && (code[Target(code[i])].BLabel? || code[Target(code[i])].BFunction?)
  {
    var labels := LabelsUpTo(lines, |lines|, true).value;
    var code := DecodeLines(lines, true).value;
    var nb := NonBlank(lines);
    DecodePerLine(lines, |lines|, Decoding(labels));
    assert lines[..|lines|] == lines;
    LabelsFirstWins(lines, |lines|, true, labels);
    forall i | 0 <= i < |code| && HasTarget(code[i])
      ensures Target(code[i]) < |code| && (code[Target(code[i])].BLabel? || code[Target(code[i])].BFunction?)
    {
      var tokens := Tokens(nb[i]);
      assert Decoding(labels)(tokens, Wrap(i)) == Success(code[i]);
      TargetIsLabel(tokens, Wrap(i), labels);
      var name := tokens[1];
      var k :| 0 <= k < |lines| && Defines(lines[k], name) && labels[name] == LabelIndex(lines, k, true);
      NonBlankIndex(lines, k);
      var p := |NonBlank(lines[..k])|;
      assert Target(code[i]) == p;
      assert Decoding(labels)(Tokens(nb[p]), Wrap(p)) == Success(code[p]);
      DefiningLineDecodes(lines[k], name, Wrap(p), labels);
    }
  }
}
