/** The exception hierarchy of the VM and the messages its `what()` returns. */
module Exceptions {

  /** Every exception the modelled code throws. The last two are the standard library's
      `std::out_of_range` (from `at`, `substr` and `stoul`) and `std::invalid_argument` (from `stoul`). */
  datatype Exception =
    | Generic
    | WithMessage(message: string)
    | UnknownInstruction(token: string, instruction: seq<string>)
    | RuntimeError
    | InternalError
    | JITCompileError
    | OptimizationError
    | OutOfRange
    | InvalidArgument
  {
    /** Whether this is one of the VM's own exception classes, which carry a message. */
    predicate IsVMException() { !OutOfRange? && !InvalidArgument? }
  }

  const UNKNOWN_PREFIX: string := "Undefined token \""

  /** Each token followed by one space. */
  function Spaced(tokens: seq<string>): (s: string)
    ensures |s| >= |tokens|
  {
    if tokens == [] then "" else tokens[0] + " " + Spaced(tokens[1..])
  }

  /** The tokens separated by single spaces. */
  function Join(tokens: seq<string>): string {
    if |tokens| <= 1 then (if tokens == [] then "" else tokens[0])
    else tokens[0] + " " + Join(tokens[1..])
  }

  /** The text the `UnkownInstruction` constructor accumulates before it overwrites the last character. */
  function UnknownDraft(token: string, instruction: seq<string>): (s: string)
    ensures |s| > 0
  {
    UNKNOWN_PREFIX + token + "\" in instruction \"" + Spaced(instruction)
  }

  /** The message returned by `what()`. */
  function What(e: Exception): string
    requires e.IsVMException()
  {
    match e
    case Generic => "Generic exception"
    case WithMessage(m) => m
    case UnknownInstruction(token, instruction) =>
      var draft := UnknownDraft(token, instruction);
      draft[..|draft| - 1] + "\""
    case RuntimeError => "Runtime error"
    case InternalError => "Internal error"
    case JITCompileError => "JIT compilation error"
    case OptimizationError => "Optimization error"
  }

  lemma {:induction false} SpacedIsJoinPlusSpace(tokens: seq<string>)
    requires tokens != []
    ensures Spaced(tokens) == Join(tokens) + " "
  {
    if |tokens| > 1 {
      SpacedIsJoinPlusSpace(tokens[1..]);
    }
  }

  /** The message names the token and quotes the whole instruction with single spaces between its
      tokens: the space after the last token has become the closing quote. */
  lemma UnknownInstructionMessage(token: string, instruction: seq<string>)
    requires instruction != []
    ensures What(UnknownInstruction(token, instruction))
         == UNKNOWN_PREFIX + token + "\" in instruction \"" + Join(instruction) + "\""
  {
    SpacedIsJoinPlusSpace(instruction);
    var draft := UnknownDraft(token, instruction);
    assert draft == (UNKNOWN_PREFIX + token + "\" in instruction \"" + Join(instruction)) + " ";
  }

  /** The constructor of `UnkownInstruction`: append every token and a space, then overwrite the
      last character with a quote. */
  method BuildUnknownInstruction(token: string, instruction: seq<string>) returns (message: string)
    ensures message == What(UnknownInstruction(token, instruction))
  {
    message := UNKNOWN_PREFIX + token + "\" in instruction \"";
    var i := 0;
    while i < |instruction|
      invariant 0 <= i <= |instruction|
      invariant message + Spaced(instruction[i..]) == UnknownDraft(token, instruction)
    {
      assert instruction[i..] == [instruction[i]] + instruction[i + 1..];
      message := message + instruction[i] + " ";
      i := i + 1;
    }
    assert instruction[i..] == [];
    message := message[..|message| - 1] + "\"";
  }
}
