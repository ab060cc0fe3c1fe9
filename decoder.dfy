/** `BCodeBuilder`: reading B-code from its text form. A first pass over the lines collects the labels,
    a second splits every line into space-separated tokens and decodes each non-empty token list. */
module Decoder {
  import opened Wrappers
  import opened Words
  import opened Exceptions
  import opened TaggedMemory
  import opened Machine
  import opened BCode
  import opened Decimal
  import opened CodeStore

  // ---------------------------------------------------------------------------------------------
  // Splitting text as repeated `std::getline(stream, piece, delimiter)` does
  // ---------------------------------------------------------------------------------------------

  /** The pieces that repeated `getline` calls extract: the text between delimiters, where a
      delimiter at the very end does not start another (empty) piece and empty text gives none. */
  function Split(s: string, d: char): seq<string> {
    SplitFrom(s, d, 0, 0)
  }

  /** The pieces of `s[start..]`, where `s[start..j]` has been read without meeting a delimiter. */
  function SplitFrom(s: string, d: char, start: nat, j: nat): seq<string>
    requires start <= j <= |s|
    decreases |s| - j
  {
    if j == |s| then
      if start == |s| then [] else [s[start..]]
    else if s[j] == d then
      [s[start..j]] + SplitFrom(s, d, j + 1, j + 1)
    else
      SplitFrom(s, d, start, j + 1)
  }

  /** The pieces separated by single delimiters. */
  function Glue(pieces: seq<string>, d: char): string {
    if pieces == [] then ""
    else if |pieces| == 1 then pieces[0]
    else pieces[0] + [d] + Glue(pieces[1..], d)
  }

  /** No delimiter occurs in `s[start..j]`. */
  predicate Scanned(s: string, d: char, start: nat, j: nat)
    requires start <= j <= |s|
  {
    forall i | start <= i < j :: s[i] != d
  }

  /** Empty text gives no pieces, and any other text at least one. */
  lemma SplitEmpty(s: string, d: char)
    ensures Split(s, d) == [] <==> s == []
  {
    SplitFromEmpty(s, d, 0, 0);
  }

  lemma {:induction false} SplitFromEmpty(s: string, d: char, start: nat, j: nat)
    requires start <= j <= |s|
    ensures SplitFrom(s, d, start, j) == [] <==> start == |s|
    decreases |s| - j
  {
    if j < |s| && s[j] != d {
      SplitFromEmpty(s, d, start, j + 1);
    }
  }

  /** Splitting loses nothing but a final delimiter: gluing the pieces gives back the text, or the
      text without its last character when that character is the delimiter. */
  lemma GlueSplit(s: string, d: char)
    ensures s == [] || s[|s| - 1] != d ==> Glue(Split(s, d), d) == s
    ensures s != [] && s[|s| - 1] == d ==> Glue(Split(s, d), d) + [d] == s
  {
    GlueSplitFrom(s, d, 0, 0);
    assert s[0..] == s;
  }

  lemma {:induction false} GlueSplitFrom(s: string, d: char, start: nat, j: nat)
    requires start <= j <= |s| && Scanned(s, d, start, j)
    ensures start < |s| && s[|s| - 1] != d ==> Glue(SplitFrom(s, d, start, j), d) == s[start..]
    ensures start < |s| && s[|s| - 1] == d ==> Glue(SplitFrom(s, d, start, j), d) + [d] == s[start..]
    decreases |s| - j
  {
    if j == |s| {
      if start < |s| {
        assert s[|s| - 1] != d;
      }
    } else if s[j] == d {
      var rest := SplitFrom(s, d, j + 1, j + 1);
      assert s[start..] == s[start..j] + [d] + s[j + 1..];
      if j + 1 == |s| {
        assert SplitFrom(s, d, start, j) == [s[start..j]];
      } else {
        GlueSplitFrom(s, d, j + 1, j + 1);
        SplitFromEmpty(s, d, j + 1, j + 1);
        GlueCons(s[start..j], rest, d);
      }
    } else {
      GlueSplitFrom(s, d, start, j + 1);
    }
  }

  lemma GlueCons(head: string, tail: seq<string>, d: char)
    requires tail != []
    ensures Glue([head] + tail, d) == head + [d] + Glue(tail, d)
  {
    assert ([head] + tail)[1..] == tail;
  }

  /** The `getline` loop: scan the text once, cutting a piece at every delimiter. */
  method GetPieces(s: string, d: char) returns (pieces: seq<string>)
    ensures pieces == Split(s, d)
  {
    pieces := [];
    var start := 0;
    var j := 0;
    while j < |s|
      invariant 0 <= start <= j <= |s|
      invariant pieces + SplitFrom(s, d, start, j) == Split(s, d)
    {
      if s[j] == d {
        pieces := pieces + [s[start..j]];
        start := j + 1;
      }
      j := j + 1;
    }
    if start < |s| {
      pieces := pieces + [s[start..]];
    }
  }

  /** The tokens of a line, read by the `getline` loop. */
  method GetTokens(line: string) returns (tokens: seq<string>)
    ensures tokens == Tokens(line)
  {
    tokens := GetPieces(line, ' ');
  }

  /** The lines of a text, read by the `getline` loop. */
  method GetLines(text: string) returns (lines: seq<string>)
    ensures lines == Lines(text)
  {
    lines := GetPieces(text, '\n');
  }

  /** The lines of a program text. */
  function Lines(text: string): seq<string> {
    Split(text, '\n')
  }

  /** The space-separated tokens of a line; a line has none exactly when it is empty. */
  function Tokens(line: string): (tokens: seq<string>)
    ensures tokens == [] <==> line == ""
  {
    SplitEmpty(line, ' ');
    Split(line, ' ')
  }

  // ---------------------------------------------------------------------------------------------
  // The label pass
  // ---------------------------------------------------------------------------------------------

  predicate StartsWith(s: string, prefix: string) {
    |prefix| <= |s| && s[..|prefix|] == prefix
  }

  /** The label a line defines: the text after the first six characters of a line starting with
      `LABEL`, or after the first nine of one starting with `FUNCTION`. `substr` past the end of the
      line throws `std::out_of_range`, which happens for exactly the two bare keywords. */
  function LabelDefinition(line: string): (r: Result<Option<string>, Exception>)
    ensures r.Failure? <==> line == "LABEL" || line == "FUNCTION"
    ensures r.Failure? ==> r.error == OutOfRange
    ensures r.Success? && r.value.Some? ==> line != ""
  {
    if StartsWith(line, "LABEL") then
      if |line| < 6 then
        assert line == line[..5];
        Failure(OutOfRange)
      else
        assert line[0] == line[..5][0];
        Success(Some(line[6..]))
    else if StartsWith(line, "FUNCTION") then
      if |line| < 9 then
        assert line == line[..8];
        Failure(OutOfRange)
      else Success(Some(line[9..]))
    else Success(None)
  }

  /** Whether `line` defines the label `name`. */
  predicate Defines(line: string, name: string) {
    LabelDefinition(line) == Success(Some(name))
  }

  /** The lines that hold tokens, in order. */
  function NonBlank(lines: seq<string>): (r: seq<string>)
    ensures |r| <= |lines|
    ensures forall i | 0 <= i < |r| :: r[i] != ""
  {
    if lines == [] then []
    else
      var last := lines[|lines| - 1];
      NonBlank(lines[..|lines| - 1]) + (if last == "" then [] else [last])
  }

  /** The index the label of line `k` is given. As written, it is the raw line index, which counts
      empty lines; `corrected` gives the index of the instruction the line decodes to instead. */
  function LabelIndex(lines: seq<string>, k: nat, corrected: bool): Word
    requires k <= |lines|
  {
    if corrected then Wrap(|NonBlank(lines[..k])|) else Wrap(k)
  }

  /** The labels collected from the first `n` lines. `std::map::insert` leaves a name that is already
      present untouched, so the first definition of a name wins. */
  function LabelsUpTo(lines: seq<string>, n: nat, corrected: bool): Result<map<string, Word>, Exception>
    requires n <= |lines|
  {
    if n == 0 then Success(map[])
    else
      var labels :- LabelsUpTo(lines, n - 1, corrected);
      var definition :- LabelDefinition(lines[n - 1]);
      if definition.Some? && definition.value !in labels then
        Success(labels[definition.value := LabelIndex(lines, n - 1, corrected)])
      else Success(labels)
  }

  /** The label pass throws exactly when some line is a bare `LABEL` or `FUNCTION` keyword. */
  lemma {:induction false} LabelsFail(lines: seq<string>, n: nat, corrected: bool)
    requires n <= |lines|
    ensures LabelsUpTo(lines, n, corrected).Failure? <==>
              exists k | 0 <= k < n :: lines[k] == "LABEL" || lines[k] == "FUNCTION"
    ensures LabelsUpTo(lines, n, corrected).Failure? ==> LabelsUpTo(lines, n, corrected).error == OutOfRange
  {
    if n > 0 {
      LabelsFail(lines, n - 1, corrected);
      if LabelsUpTo(lines, n - 1, corrected).Success? && LabelDefinition(lines[n - 1]).Success? {
        forall k | 0 <= k < n
          ensures lines[k] != "LABEL" && lines[k] != "FUNCTION"
        {
          if k == n - 1 {
            assert LabelDefinition(lines[k]).Success?;
          }
        }
      }
    }
  }

  /** Once the label pass has thrown, later lines do not matter. */
  lemma {:induction false} LabelsFailureStays(lines: seq<string>, k: nat, n: nat, corrected: bool)
    requires k <= n <= |lines|
    requires LabelsUpTo(lines, k, corrected).Failure?
    ensures LabelsUpTo(lines, n, corrected) == LabelsUpTo(lines, k, corrected)
    decreases n - k
  {
    if k < n {
      LabelsFailureStays(lines, k, n - 1, corrected);
    }
  }

  /** A name is a label exactly when some line defines it. */
  lemma {:induction false} LabelsDefined(lines: seq<string>, n: nat, corrected: bool, labels: map<string, Word>)
    requires n <= |lines|
    requires LabelsUpTo(lines, n, corrected) == Success(labels)
    ensures forall name :: name in labels <==> exists k | 0 <= k < n :: Defines(lines[k], name)
  {
    if n > 0 {
      var before := LabelsUpTo(lines, n - 1, corrected).value;
      LabelsDefined(lines, n - 1, corrected, before);
      forall name
        ensures name in labels <==> exists k | 0 <= k < n :: Defines(lines[k], name)
      {
        if Defines(lines[n - 1], name) {
          assert name in labels;
        }
      }
    }
  }

  /** A label maps to the index of the FIRST line that defines it. */
  lemma {:induction false} LabelsFirstWins(lines: seq<string>, n: nat, corrected: bool, labels: map<string, Word>)
    requires n <= |lines|
    requires LabelsUpTo(lines, n, corrected) == Success(labels)
    ensures forall name | name in labels :: exists k | 0 <= k < n ::
              Defines(lines[k], name) && labels[name] == LabelIndex(lines, k, corrected) &&
              forall j | 0 <= j < k :: !Defines(lines[j], name)
  {
    if n > 0 {
      var before := LabelsUpTo(lines, n - 1, corrected).value;
      LabelsFirstWins(lines, n - 1, corrected, before);
      LabelsDefined(lines, n - 1, corrected, before);
      var definition := LabelDefinition(lines[n - 1]).value;
      forall name | name in labels
        ensures exists k | 0 <= k < n ::
                  Defines(lines[k], name) && labels[name] == LabelIndex(lines, k, corrected) &&
                  forall j | 0 <= j < k :: !Defines(lines[j], name)
      {
        if name in before {
          assert labels[name] == before[name];
        } else {
          assert definition == Some(name);
          assert Defines(lines[n - 1], name);
        }
      }
    }
  }

  // ---------------------------------------------------------------------------------------------
  // Decoding one token list
  // ---------------------------------------------------------------------------------------------

  /** `tokens.at(i)`. */
  function TokenAt(tokens: seq<string>, i: nat): (r: Result<string, Exception>)
    ensures r.Success? <==> i < |tokens|
    ensures r.Success? ==> r.value == tokens[i]
    ensures r.Failure? ==> r.error == OutOfRange
  {
    if i < |tokens| then Success(tokens[i]) else Failure(OutOfRange)
  }

  /** `labels.at(name)`. */
  function LabelAt(labels: map<string, Word>, name: string): (r: Result<Word, Exception>)
    ensures r.Success? <==> name in labels
    ensures r.Success? ==> r.value == labels[name]
    ensures r.Failure? ==> r.error == OutOfRange
  {
    if name in labels then Success(labels[name]) else Failure(OutOfRange)
  }

  /** The instruction classes `getInstructionFromTokens` tells apart by the first token. */
  datatype Opcode =
    | OpUnary | OpOper | OpMkPair | OpFst | OpSnd | OpMkInl | OpMkInr | OpPush | OpApply | OpLookup
    | OpReturn | OpMkClosure | OpSwap | OpPop | OpLabel | OpFunction | OpDeref | OpMkRef | OpAssign
    | OpHalt | OpGoto | OpTest | OpCase
  {
    /** The classes whose second token names a variant. */
    predicate IsFamily() { OpUnary? || OpOper? || OpPush? || OpLookup? }
  }

  /** The class a first token names, tried in the order of the source's `if` chain, which is
      taken here in four stretches. */
  function OpcodeNamed(name: string): Option<Opcode> {
    match BasicNamed(name)
    case Some(op) => Some(op)
    case None =>
      match ValueNamed(name)
      case Some(op) => Some(op)
      case None =>
        match StackNamed(name)
        case Some(op) => Some(op)
        case None => ControlNamed(name)
  }

  function BasicNamed(name: string): Option<Opcode> {
    if name == "UNARY" then Some(OpUnary)
    else if name == "OPER" then Some(OpOper)
    else if name == "MK_PAIR" then Some(OpMkPair)
    else if name == "FST" then Some(OpFst)
    else if name == "SND" then Some(OpSnd)
    else if name == "MK_INL" then Some(OpMkInl)
    else None
  }

  function ValueNamed(name: string): Option<Opcode> {
    if name == "MK_INR" then Some(OpMkInr)
    else if name == "PUSH" then Some(OpPush)
    else if name == "APPLY" then Some(OpApply)
    else if name == "LOOKUP" then Some(OpLookup)
    else if name == "RETURN" then Some(OpReturn)
    else if name == "MK_CLOSURE" then Some(OpMkClosure)
    else None
  }

  function StackNamed(name: string): Option<Opcode> {
    if name == "SWAP" then Some(OpSwap)
    else if name == "POP" then Some(OpPop)
    else if name == "LABEL" then Some(OpLabel)
    else if name == "FUNCTION" then Some(OpFunction)
    else if name == "DEREF" then Some(OpDeref)
    else if name == "MK_REF" then Some(OpMkRef)
    else None
  }

  function ControlNamed(name: string): Option<Opcode> {
    if name == "ASSIGN" then Some(OpAssign)
    else if name == "HALT" then Some(OpHalt)
    else if name == "GOTO" then Some(OpGoto)
    else if name == "TEST" then Some(OpTest)
    else if name == "CASE" then Some(OpCase)
    else None
  }

  function UnaryNamed(name: string): Option<UnaryOp> {
    if name == "NOT" then Some(Not)
    else if name == "NEG" then Some(Neg)
    else if name == "READ" then Some(Read)
    else None
  }

  function BinaryNamed(name: string): Option<BinaryOp> {
    if name == "AND" then Some(And)
    else if name == "OR" then Some(Or)
    else if name == "EQ" then Some(Eq)
    else if name == "LT" then Some(Lt)
    else if name == "ADD" then Some(Add)
    else if name == "SUB" then Some(Sub)
    else if name == "MUL" then Some(Mul)
    else if name == "DIV" then Some(Div)
    else None
  }

  function PushTagNamed(name: string): Option<PushTag> {
    if name == "STACK_UNIT" then Some(Unit)
    else if name == "STACK_BOOL" then Some(Bool)
    else if name == "STACK_INT" then Some(Int)
    else None
  }

  function LocationNamed(name: string): Option<Location> {
    if name == "STACK_LOCATION" then Some(Stack)
    else if name == "HEAP_LOCATION" then Some(Heap)
    else None
  }

  /** Whether `name` is a second token the family `op` accepts. */
  predicate IsVariant(op: Opcode, name: string) {
    match op
    case OpUnary => UnaryNamed(name).Some?
    case OpOper => BinaryNamed(name).Some?
    case OpPush => PushTagNamed(name).Some?
    case OpLookup => LocationNamed(name).Some?
    case _ => false
  }

  function DecodeUnary(tokens: seq<string>, cp: Word): Result<BInstruction, Exception> {
    var name :- TokenAt(tokens, 1);
    match UnaryNamed(name)
    case Some(op) => Success(BUnary(cp, op))
    case None => Failure(UnknownInstruction(name, tokens))
  }

  function DecodeOper(tokens: seq<string>, cp: Word): Result<BInstruction, Exception> {
    var name :- TokenAt(tokens, 1);
    match BinaryNamed(name)
    case Some(op) => Success(BOper(cp, op))
    case None => Failure(UnknownInstruction(name, tokens))
  }

  /** `PUSH`: a unit literal stores 0, a Boolean literal stores whether its text is `true`, and an
      integer literal is read by `std::stoul` and stored in an `int`. */
  function DecodePush(tokens: seq<string>, cp: Word): Result<BInstruction, Exception> {
    var name :- TokenAt(tokens, 1);
    match PushTagNamed(name)
    case None => Failure(UnknownInstruction(name, tokens))
    case Some(tag) =>
      if tag == Unit then Success(BPush(cp, Unit, 0))
      else
        var literal :- TokenAt(tokens, 2);
        if tag == Bool then Success(BPush(cp, Bool, if literal == "true" then 1 else 0))
        else
          var value :- Stoul(literal);
          Success(BPush(cp, Int, ToInt(value)))
  }

  /** `LOOKUP`: the offset is read by `std::stoul` and stored in an `int`. */
  function DecodeLookup(tokens: seq<string>, cp: Word): Result<BInstruction, Exception> {
    var name :- TokenAt(tokens, 1);
    match LocationNamed(name)
    case None => Failure(UnknownInstruction(name, tokens))
    case Some(location) =>
      var literal :- TokenAt(tokens, 2);
      var offset :- Stoul(literal);
      Success(BLookup(cp, location, ToInt(offset)))
  }

  /** `MK_CLOSURE <label> <size>`: the closure's code location is the label's index. */
  function DecodeMkClosure(tokens: seq<string>, cp: Word, labels: map<string, Word>): Result<BInstruction, Exception> {
    var name :- TokenAt(tokens, 1);
    var location :- LabelAt(labels, name);
    var literal :- TokenAt(tokens, 2);
    var size :- Stoul(literal);
    Success(BMkClosure(cp, location, size))
  }

  /** `GOTO`, `TEST` and `CASE` take the index of the label named by their second token. */
  function DecodeTarget(tokens: seq<string>, labels: map<string, Word>): Result<Word, Exception> {
    var name :- TokenAt(tokens, 1);
    LabelAt(labels, name)
  }

  /** The instruction of class `op` built from the remaining tokens. */
  function Assemble(op: Opcode, tokens: seq<string>, cp: Word, labels: map<string, Word>): (r: Result<BInstruction, Exception>)
    ensures r.Success? ==> r.value.cp == cp && OpcodeOf(r.value) == op
  {
    match op
    case OpUnary => DecodeUnary(tokens, cp)
    case OpOper => DecodeOper(tokens, cp)
    case OpMkPair => Success(BMkPair(cp))
    case OpFst => Success(BFst(cp))
    case OpSnd => Success(BSnd(cp))
    case OpMkInl => Success(BMkInl(cp))
    case OpMkInr => Success(BMkInr(cp))
    case OpPush => DecodePush(tokens, cp)
    case OpApply => Success(BApply(cp))
    case OpLookup => DecodeLookup(tokens, cp)
    case OpReturn => Success(BReturn(cp))
    case OpMkClosure => DecodeMkClosure(tokens, cp, labels)
    case OpSwap => Success(BSwap(cp))
    case OpPop => Success(BPop(cp))
    case OpLabel => Success(BLabel(cp))
    case OpFunction => Success(BFunction(cp))
    case OpDeref => Success(BDeref(cp))
    case OpMkRef => Success(BMkRef(cp))
    case OpAssign => Success(BAssign(cp))
    case OpHalt => Success(BHalt(cp))
    case OpGoto =>
      var destination :- DecodeTarget(tokens, labels);
      Success(BGoto(cp, destination))
    case OpTest =>
      var destination :- DecodeTarget(tokens, labels);
      Success(BTest(cp, destination))
    case OpCase =>
      var destination :- DecodeTarget(tokens, labels);
      Success(BCase(cp, destination))
  }

  /** `getInstructionFromTokens`: a case split on the first token, giving the instruction at `cp`;
      an unrecognised first token throws `UnkownInstruction`. */
  function FromTokens(tokens: seq<string>, cp: Word, labels: map<string, Word>): (r: Result<BInstruction, Exception>)
    ensures r.Success? ==> r.value.cp == cp
  {
    var mnemonic :- TokenAt(tokens, 0);
    match OpcodeNamed(mnemonic)
    case Some(op) => Assemble(op, tokens, cp, labels)
    case None => Failure(UnknownInstruction(mnemonic, tokens))
  }

  // ---------------------------------------------------------------------------------------------
  // The text form of an instruction, as the inverse of decoding
  // ---------------------------------------------------------------------------------------------

  /** The class of an instruction. */
  function OpcodeOf(i: BInstruction): Opcode {
    match i
    case BUnary(_, _) => OpUnary
    case BOper(_, _) => OpOper
    case BMkPair(_) => OpMkPair
    case BFst(_) => OpFst
    case BSnd(_) => OpSnd
    case BMkInl(_) => OpMkInl
    case BMkInr(_) => OpMkInr
    case BPush(_, _, _) => OpPush
    case BApply(_) => OpApply
    case BLookup(_, _, _) => OpLookup
    case BReturn(_) => OpReturn
    case BMkClosure(_, _, _) => OpMkClosure
    case BSwap(_) => OpSwap
    case BPop(_) => OpPop
    case BLabel(_) => OpLabel
    case BFunction(_) => OpFunction
    case BDeref(_) => OpDeref
    case BMkRef(_) => OpMkRef
    case BAssign(_) => OpAssign
    case BHalt(_) => OpHalt
    case BGoto(_, _) => OpGoto
    case BTest(_, _) => OpTest
    case BCase(_, _) => OpCase
  }

  /** The first token of a class. */
  function Mnemonic(op: Opcode): string {
    match op
    case OpUnary => "UNARY"
    case OpOper => "OPER"
    case OpMkPair => "MK_PAIR"
    case OpFst => "FST"
    case OpSnd => "SND"
    case OpMkInl => "MK_INL"
    case OpMkInr => "MK_INR"
    case OpPush => "PUSH"
    case OpApply => "APPLY"
    case OpLookup => "LOOKUP"
    case OpReturn => "RETURN"
    case OpMkClosure => "MK_CLOSURE"
    case OpSwap => "SWAP"
    case OpPop => "POP"
    case OpLabel => "LABEL"
    case OpFunction => "FUNCTION"
    case OpDeref => "DEREF"
    case OpMkRef => "MK_REF"
    case OpAssign => "ASSIGN"
    case OpHalt => "HALT"
    case OpGoto => "GOTO"
    case OpTest => "TEST"
    case OpCase => "CASE"
  }

  /** Recognising a first token is the inverse of `Mnemonic`: a recognised token is the
      mnemonic of its class. */
  lemma NamedIsMnemonic(name: string)
    ensures OpcodeNamed(name).Some? ==> Mnemonic(OpcodeNamed(name).value) == name
  {
    BasicIsMnemonic(name);
    ValueIsMnemonic(name);
    StackIsMnemonic(name);
    ControlIsMnemonic(name);
  }

  lemma BasicIsMnemonic(name: string)
    ensures BasicNamed(name).Some? ==> Mnemonic(BasicNamed(name).value) == name
  {
  }

  lemma ValueIsMnemonic(name: string)
    ensures ValueNamed(name).Some? ==> Mnemonic(ValueNamed(name).value) == name
  {
  }

  lemma StackIsMnemonic(name: string)
    ensures StackNamed(name).Some? ==> Mnemonic(StackNamed(name).value) == name
  {
  }

  lemma ControlIsMnemonic(name: string)
    ensures ControlNamed(name).Some? ==> Mnemonic(ControlNamed(name).value) == name
  {
  }

  /** ... and every class is recognised by its mnemonic, so different classes have different
      mnemonics. */
  lemma MnemonicIsNamed(op: Opcode)
    ensures OpcodeNamed(Mnemonic(op)) == Some(op)
  {
    var name := Mnemonic(op);
    match op
    case OpUnary | OpOper | OpMkPair | OpFst | OpSnd | OpMkInl =>
      assert BasicNamed(name) == Some(op);
    case OpMkInr | OpPush | OpApply | OpLookup | OpReturn | OpMkClosure =>
      assert BasicNamed(name) == None;
      assert ValueNamed(name) == Some(op);
    case OpSwap | OpPop | OpLabel | OpFunction | OpDeref | OpMkRef =>
      assert BasicNamed(name) == None;
      StackNotValue(op);
      assert StackNamed(name) == Some(op);
    case _ =>
      assert BasicNamed(name) == None;
      ControlNotValue(op);
      assert StackNamed(name) == None;
      assert ControlNamed(name) == Some(op);
  }

  lemma StackNotValue(op: Opcode)
    requires op.OpSwap? || op.OpPop? || op.OpLabel? || op.OpFunction? || op.OpDeref? || op.OpMkRef?
    ensures ValueNamed(Mnemonic(op)) == None
  {
  }

  lemma ControlNotValue(op: Opcode)
    requires op.OpAssign? || op.OpHalt? || op.OpGoto? || op.OpTest? || op.OpCase?
    ensures ValueNamed(Mnemonic(op)) == None
  {
  }

  function UnaryName(op: UnaryOp): (name: string)
    ensures UnaryNamed(name) == Some(op)
  {
    match op
    case Not => "NOT"
    case Neg => "NEG"
    case Read => "READ"
  }

  function OperName(op: BinaryOp): (name: string)
    ensures BinaryNamed(name) == Some(op)
  {
    match op
    case And => "AND"
    case Or => "OR"
    case Eq => "EQ"
    case Lt => "LT"
    case Add => "ADD"
    case Sub => "SUB"
    case Mul => "MUL"
    case Div => "DIV"
  }

  function PushName(tag: PushTag): (name: string)
    ensures PushTagNamed(name) == Some(tag)
  {
    if tag == Unit then "STACK_UNIT" else if tag == Bool then "STACK_BOOL" else "STACK_INT"
  }

  function LocationName(location: Location): (name: string)
    ensures LocationNamed(name) == Some(location)
  {
    match location
    case Stack => "STACK_LOCATION"
    case Heap => "HEAP_LOCATION"
  }

  /** Whether an instruction refers to a label. */
  predicate HasTarget(i: BInstruction) {
    i.BMkClosure? || i.BGoto? || i.BTest? || i.BCase?
  }

  /** The label index an instruction refers to. */
  function Target(i: BInstruction): Word
    requires HasTarget(i)
  {
    if i.BMkClosure? then i.closureLocation else i.destination
  }

  /** Whether an instruction has a text form: a unit literal is 0 and a Boolean literal 0 or 1. */
  predicate Writable(i: BInstruction) {
    i.BPush? ==> (i.tag == Unit ==> i.value == 0) && (i.tag == Bool ==> i.value == 0 || i.value == 1)
  }

  /** The tokens of an instruction after its mnemonic, with `name` as the label it refers to. */
  function Operands(i: BInstruction, name: string): seq<string> {
    match i
    case BUnary(_, op) => [UnaryName(op)]
    case BOper(_, op) => [OperName(op)]
    case BPush(_, tag, value) =>
      if tag == Unit then [PushName(tag)]
      else if tag == Bool then [PushName(tag), if value == 1 then "true" else "false"]
      else [PushName(tag), IntToString(value)]
    case BLookup(_, location, offset) => [LocationName(location), IntToString(offset)]
    case BMkClosure(_, _, size) => [name, NatToString(size)]
    case BGoto(_, _) => [name]
    case BTest(_, _) => [name]
    case BCase(_, _) => [name]
    case _ => []
  }

  /** The tokens of an instruction. */
  function Write(i: BInstruction, name: string): seq<string> {
    [Mnemonic(OpcodeOf(i))] + Operands(i, name)
  }

  /** `std::stoul` of an `int` literal, stored in an `int`, is the literal's value. */
  lemma StoulOfInt32(v: Int32)
    ensures Stoul(IntToString(v)).Success?
    ensures ToInt(Stoul(IntToString(v)).value) == v
  {
    if v < 0 {
      StoulOfNegative(v);
    } else {
      StoulOfNatToString(v);
      ToIntOfInt32(v);
    }
  }

  /** Decoding the text of an instruction gives the instruction back, given a label that names its target. */
  lemma FromTokensOfWrite(i: BInstruction, name: string, labels: map<string, Word>)
    requires Writable(i)
    requires HasTarget(i) ==> name in labels && labels[name] == Target(i)
    ensures FromTokens(Write(i, name), i.cp, labels) == Success(i)
  {
    var tokens := Write(i, name);
    MnemonicIsNamed(OpcodeOf(i));
    assert FromTokens(tokens, i.cp, labels) == Assemble(OpcodeOf(i), tokens, i.cp, labels);
    AssembleOfWrite(i, name, labels);
  }

  /** The operands of an instruction's text assemble back into it. */
  lemma AssembleOfWrite(i: BInstruction, name: string, labels: map<string, Word>)
    requires Writable(i)
    requires HasTarget(i) ==> name in labels && labels[name] == Target(i)
    ensures Assemble(OpcodeOf(i), Write(i, name), i.cp, labels) == Success(i)
  {
    var tokens := Write(i, name);
    assert tokens[1..] == Operands(i, name);
    if i.BPush? {
      AssembleOfWritePush(i, name, labels);
    } else if i.BLookup? {
      StoulOfInt32(i.offset);
    } else if i.BMkClosure? {
      StoulOfNatToString(i.size);
    } else if HasTarget(i) {
      AssembleOfWriteJump(i, name, labels);
    } else {
      AssembleOfWritePlain(i, name, labels);
    }
  }

  lemma AssembleOfWritePush(i: BInstruction, name: string, labels: map<string, Word>)
    requires i.BPush? && Writable(i)
    ensures Assemble(OpcodeOf(i), Write(i, name), i.cp, labels) == Success(i)
  {
    if i.tag == Int {
      StoulOfInt32(i.value);
    }
  }

  lemma AssembleOfWriteJump(i: BInstruction, name: string, labels: map<string, Word>)
    requires i.BGoto? || i.BTest? || i.BCase?
    requires name in labels && labels[name] == Target(i)
    ensures Assemble(OpcodeOf(i), Write(i, name), i.cp, labels) == Success(i)
  {
  }

  lemma AssembleOfWritePlain(i: BInstruction, name: string, labels: map<string, Word>)
    requires !i.BPush? && !i.BLookup? && !HasTarget(i)
    ensures Assemble(OpcodeOf(i), Write(i, name), i.cp, labels) == Success(i)
  {
  }

  /** Decoding a recognised first token is assembling the instruction of its class. */
  lemma FromTokensNamed(tokens: seq<string>, cp: Word, labels: map<string, Word>, op: Opcode)
    requires |tokens| > 0 && OpcodeNamed(tokens[0]) == Some(op)
    ensures FromTokens(tokens, cp, labels) == Assemble(op, tokens, cp, labels)
  {
  }

  /** `Assemble` throws `UnkownInstruction` only for an unrecognised variant of a family. */
  lemma AssembleUnknown(op: Opcode, tokens: seq<string>, cp: Word, labels: map<string, Word>)
    requires Assemble(op, tokens, cp, labels).Failure?
    requires Assemble(op, tokens, cp, labels).error.UnknownInstruction?
    ensures op.IsFamily() && |tokens| > 1 && !IsVariant(op, tokens[1])
    ensures Assemble(op, tokens, cp, labels).error == UnknownInstruction(tokens[1], tokens)
  {
  }

  /** A decoded instruction's first token is the mnemonic of its class; trailing tokens are ignored. */
  lemma FromTokensMnemonic(tokens: seq<string>, cp: Word, labels: map<string, Word>)
    requires FromTokens(tokens, cp, labels).Success?
    ensures |tokens| > 0 && tokens[0] == Mnemonic(OpcodeOf(FromTokens(tokens, cp, labels).value))
  {
    NamedIsMnemonic(tokens[0]);
  }

  /** An unrecognised first token throws `UnkownInstruction` naming it and carrying every token. */
  lemma UnknownMnemonic(tokens: seq<string>, cp: Word, labels: map<string, Word>)
    requires |tokens| > 0 && OpcodeNamed(tokens[0]).None?
    ensures FromTokens(tokens, cp, labels) == Failure(UnknownInstruction(tokens[0], tokens))
  {
  }

  /** So does an unrecognised second token of `UNARY`, `OPER`, `PUSH` or `LOOKUP`. */
  lemma UnknownVariant(tokens: seq<string>, cp: Word, labels: map<string, Word>)
    requires |tokens| > 1 && OpcodeNamed(tokens[0]).Some? && OpcodeNamed(tokens[0]).value.IsFamily()
    requires !IsVariant(OpcodeNamed(tokens[0]).value, tokens[1])
    ensures FromTokens(tokens, cp, labels) == Failure(UnknownInstruction(tokens[1], tokens))
  {
  }

  /** `UnkownInstruction` is thrown for those two reasons only. */
  lemma UnknownOnlyForUnknownTokens(tokens: seq<string>, cp: Word, labels: map<string, Word>)
    requires FromTokens(tokens, cp, labels).Failure?
    requires FromTokens(tokens, cp, labels).error.UnknownInstruction?
    ensures FromTokens(tokens, cp, labels).error.instruction == tokens
    ensures (OpcodeNamed(tokens[0]).None? && FromTokens(tokens, cp, labels).error.token == tokens[0]) ||
            (OpcodeNamed(tokens[0]).Some? && OpcodeNamed(tokens[0]).value.IsFamily() && |tokens| > 1 &&
             !IsVariant(OpcodeNamed(tokens[0]).value, tokens[1]) && FromTokens(tokens, cp, labels).error.token == tokens[1])
  {
    match OpcodeNamed(tokens[0])
    case None =>
    case Some(op) =>
      FromTokensNamed(tokens, cp, labels, op);
      AssembleUnknown(op, tokens, cp, labels);
  }

  /** A jump names an existing label and takes its index; an undefined label throws
      `std::out_of_range`, not `UnkownInstruction`. */
  lemma JumpTargets(tokens: seq<string>, cp: Word, labels: map<string, Word>)
    requires |tokens| > 1 && (tokens[0] == "GOTO" || tokens[0] == "TEST" || tokens[0] == "CASE")
    ensures tokens[1] in labels ==>
              FromTokens(tokens, cp, labels).Success? &&
              FromTokens(tokens, cp, labels).value.destination == labels[tokens[1]]
    ensures tokens[1] !in labels ==> FromTokens(tokens, cp, labels) == Failure(OutOfRange)
  {
    var op := if tokens[0] == "GOTO" then OpGoto else if tokens[0] == "TEST" then OpTest else OpCase;
    assert tokens[0] == Mnemonic(op);
    MnemonicIsNamed(op);
    FromTokensNamed(tokens, cp, labels, op);
  }

  /** A closure's location is its label's index, and an undefined label throws `std::out_of_range`. */
  lemma ClosureTarget(tokens: seq<string>, cp: Word, labels: map<string, Word>)
    requires |tokens| > 1 && tokens[0] == "MK_CLOSURE"
    ensures tokens[1] in labels && FromTokens(tokens, cp, labels).Success? ==>
              FromTokens(tokens, cp, labels).value.closureLocation == labels[tokens[1]]
    ensures tokens[1] !in labels ==> FromTokens(tokens, cp, labels) == Failure(OutOfRange)
  {
    MnemonicIsNamed(OpMkClosure);
    FromTokensNamed(tokens, cp, labels, OpMkClosure);
  }

  /** `PUSH STACK_BOOL v` stores 1 exactly when `v` is `true`, and `PUSH STACK_UNIT` stores 0. */
  lemma PushLiterals(tokens: seq<string>, cp: Word, labels: map<string, Word>)
    requires |tokens| > 1 && tokens[0] == "PUSH"
    ensures tokens[1] == "STACK_UNIT" ==> FromTokens(tokens, cp, labels) == Success(BPush(cp, Unit, 0))
    ensures tokens[1] == "STACK_BOOL" && |tokens| > 2 ==>
              FromTokens(tokens, cp, labels) == Success(BPush(cp, Bool, if tokens[2] == "true" then 1 else 0))
    ensures tokens[1] == "STACK_BOOL" && |tokens| == 2 ==> FromTokens(tokens, cp, labels) == Failure(OutOfRange)
  {
    MnemonicIsNamed(OpPush);
  }

  // ---------------------------------------------------------------------------------------------
  // Decoding a program
  // ---------------------------------------------------------------------------------------------

  /** A decoder of one token list at a given index. */
  type LineDecoder = (seq<string>, Word) -> Result<BInstruction, Exception>

  /** `getInstructionFromTokens` with the labels of the program. */
  function Decoding(labels: map<string, Word>): LineDecoder {
    (tokens: seq<string>, cp: Word) => FromTokens(tokens, cp, labels)
  }

  /** The instructions decoded from the first `n` lines: a line without tokens is skipped, and any
      other is decoded at the number of instructions decoded before it. */
  function DecodeUpTo(lines: seq<string>, n: nat, decode: LineDecoder): Result<seq<BInstruction>, Exception>
    requires n <= |lines|
  {
    if n == 0 then Success([])
    else
      var code :- DecodeUpTo(lines, n - 1, decode);
      var tokens := Tokens(lines[n - 1]);
      if tokens == [] then Success(code)
      else
        var instruction :- decode(tokens, Wrap(|code|));
        Success(code + [instruction])
  }

  /** Once decoding has thrown, later lines do not matter. */
  lemma {:induction false} DecodeFailureStays(lines: seq<string>, k: nat, n: nat, decode: LineDecoder)
    requires k <= n <= |lines|
    requires DecodeUpTo(lines, k, decode).Failure?
    ensures DecodeUpTo(lines, n, decode) == DecodeUpTo(lines, k, decode)
    decreases n - k
  {
    if k < n {
      DecodeFailureStays(lines, k, n - 1, decode);
    }
  }

  lemma NonBlankSnoc(lines: seq<string>, n: nat)
    requires 0 < n <= |lines|
    ensures NonBlank(lines[..n]) ==
              NonBlank(lines[..n - 1]) + (if lines[n - 1] == "" then [] else [lines[n - 1]])
  {
    assert lines[..n][..n - 1] == lines[..n - 1];
  }

  /** Whether every line of `nb` decodes at its index. */
  predicate AllDecode(nb: seq<string>, decode: LineDecoder) {
    forall i | 0 <= i < |nb| :: decode(Tokens(nb[i]), Wrap(i)).Success?
  }

  /** Whether `code` holds the instruction of every line of `nb`, at its index. */
  predicate DecodedFrom(code: seq<BInstruction>, nb: seq<string>, decode: LineDecoder) {
    |code| == |nb| && forall i | 0 <= i < |nb| :: decode(Tokens(nb[i]), Wrap(i)) == Success(code[i])
  }

  /** Decoding is line by line: it succeeds exactly when every non-empty line decodes at its
      position among the non-empty lines, and then gives one instruction per non-empty line. */
  lemma {:induction false} DecodePerLine(lines: seq<string>, n: nat, decode: LineDecoder)
    requires n <= |lines|
    ensures DecodeUpTo(lines, n, decode).Success? <==> AllDecode(NonBlank(lines[..n]), decode)
    ensures DecodeUpTo(lines, n, decode).Success? ==>
              DecodedFrom(DecodeUpTo(lines, n, decode).value, NonBlank(lines[..n]), decode)
  {
    if n == 0 {
      assert lines[..0] == [];
    } else {
      DecodePerLine(lines, n - 1, decode);
      NonBlankSnoc(lines, n);
      var last := lines[n - 1];
      var before := NonBlank(lines[..n - 1]);
      var r := DecodeUpTo(lines, n - 1, decode);
      if last == "" {
        assert Tokens(last) == [];
        assert NonBlank(lines[..n]) == before;
      } else {
        var nb := before + [last];
        assert NonBlank(lines[..n]) == nb;
        if r.Success? {
          DecodedSnoc(r.value, before, last, decode);
        } else {
          var i :| 0 <= i < |before| && !decode(Tokens(before[i]), Wrap(i)).Success?;
          assert nb[i] == before[i];
        }
      }
    }
  }

  /** Appending the instruction of one more non-empty line. */
  lemma DecodedSnoc(code: seq<BInstruction>, before: seq<string>, last: string, decode: LineDecoder)
    requires DecodedFrom(code, before, decode)
    ensures AllDecode(before + [last], decode) <==> decode(Tokens(last), Wrap(|code|)).Success?
    ensures decode(Tokens(last), Wrap(|code|)).Success? ==>
              DecodedFrom(code + [decode(Tokens(last), Wrap(|code|)).value], before + [last], decode)
  {
    var nb := before + [last];
    assert nb[|before|] == last;
    assert forall i | 0 <= i < |before| :: nb[i] == before[i];
  }

  /** The instructions of a program's lines, or the exception the decoder throws. */
  function DecodeLines(lines: seq<string>, corrected: bool): Result<seq<BInstruction>, Exception> {
    var labels :- LabelsUpTo(lines, |lines|, corrected);
    DecodeUpTo(lines, |lines|, Decoding(labels))
  }

  /** `BCodeBuilder::fromString` as written. */
  function Decode(text: string): Result<seq<BInstruction>, Exception> {
    DecodeLines(Lines(text), false)
  }

  /** The label pass of `fromString`: one `getline` loop over the lines, counting them. */
  method CollectLabels(lines: seq<string>) returns (r: Result<map<string, Word>, Exception>)
    ensures r == LabelsUpTo(lines, |lines|, false)
  {
    var labels: map<string, Word> := map[];
    var index := 0;
    while index < |lines|
      invariant 0 <= index <= |lines|
      invariant LabelsUpTo(lines, index, false) == Success(labels)
    {
      var definition := LabelDefinition(lines[index]);
      if definition.Failure? {
        LabelsFailureStays(lines, index + 1, |lines|, false);
        return Failure(definition.error);
      }
      if definition.value.Some? && definition.value.value !in labels {
        labels := labels[definition.value.value := Wrap(index)];
      }
      index := index + 1;
    }
    r := Success(labels);
  }

  /** The decoding pass of `fromString`, with `getInstructionFromTokens` and the label indices. */
  method DecodeAll(lines: seq<string>, labels: map<string, Word>) returns (r: Result<Code<BInstruction>, Exception>)
    ensures r.Success? <==> DecodeUpTo(lines, |lines|, Decoding(labels)).Success?
    ensures r.Success? ==> fresh(r.value) && r.value.instructions == DecodeUpTo(lines, |lines|, Decoding(labels)).value
    ensures r.Failure? ==> r.error == DecodeUpTo(lines, |lines|, Decoding(labels)).error
  {
    r := DecodeWith(lines, Decoding(labels));
  }

  /** The decoding loop: tokenise every line and append the instruction of each non-empty token
      list, numbered by the size of the code so far; the first line that throws ends it. */
  method DecodeWith(lines: seq<string>, decode: LineDecoder) returns (r: Result<Code<BInstruction>, Exception>)
    ensures r.Success? <==> DecodeUpTo(lines, |lines|, decode).Success?
    ensures r.Success? ==> fresh(r.value) && r.value.instructions == DecodeUpTo(lines, |lines|, decode).value
    ensures r.Failure? ==> r.error == DecodeUpTo(lines, |lines|, decode).error
  {
    var code := new Code<BInstruction>();
    var n := 0;
    while n < |lines|
      invariant 0 <= n <= |lines|
      invariant fresh(code)
      invariant DecodeUpTo(lines, n, decode) == Success(code.instructions)
    {
      var failure := DecodeLine(lines, n, decode, code);
      if failure.Some? {
        DecodeFailureStays(lines, n + 1, |lines|, decode);
        return Failure(failure.value);
      }
      n := n + 1;
    }
    r := Success(code);
  }

  /** One round of the decoding loop: tokenise line `n` and, unless it has no tokens, append its
      instruction to `code` or report what it threw. */
  method DecodeLine(lines: seq<string>, n: nat, decode: LineDecoder, code: Code<BInstruction>)
    returns (failure: Option<Exception>)
    requires n < |lines| && DecodeUpTo(lines, n, decode) == Success(code.instructions)
    modifies code
    ensures failure.None? ==> DecodeUpTo(lines, n + 1, decode) == Success(code.instructions)
    ensures failure.Some? ==> DecodeUpTo(lines, n + 1, decode) == Failure(failure.value)
  {
    var tokens := GetTokens(lines[n]);
    if tokens == [] {
      return None;
    }
    var instruction := decode(tokens, Wrap(code.Size()));
    if instruction.Failure? {
      return Some(instruction.error);
    }
    code.Add(instruction.value);
    failure := None;
  }

  /** `BCodeBuilder::fromString`: the label pass over every line, then the decoding pass. */
  method FromString(text: string) returns (r: Result<Code<BInstruction>, Exception>)
    ensures r.Success? <==> Decode(text).Success?
    ensures r.Success? ==> fresh(r.value) && r.value.instructions == Decode(text).value
    ensures r.Failure? ==> r.error == Decode(text).error
  {
    var lines := GetLines(text);
    var labels := CollectLabels(lines);
    if labels.Failure? {
      return Failure(labels.error);
    }
    r := DecodeAll(lines, labels.value);
  }
}
