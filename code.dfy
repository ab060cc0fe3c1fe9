/** `Code<T>`: the append-only sequence of instructions every tier of the VM produces and consumes. */
module CodeStore {
  import opened Wrappers
  import opened Exceptions

  class Code<T> {
    /** The instructions in the order they were added. */
    var instructions: seq<T>

    constructor ()
      ensures instructions == []
    {
      instructions := [];
    }

    /** The number of instructions, which is also the index the next added instruction receives. */
    function Size(): (n: nat)
      reads this
      ensures n == |instructions|
    {
      |instructions|
    }

    /** `getInstruction(index)`: the instruction added `index`-th; any other index throws. */
    method GetInstruction(index: int) returns (r: Result<T, Exception>)
      ensures 0 <= index < |instructions| ==> r == Success(instructions[index])
      ensures !(0 <= index < |instructions|) ==> r == Failure(OutOfRange)
    {
      if 0 <= index < |instructions| {
        r := Success(instructions[index]);
      } else {
        r := Failure(OutOfRange);
      }
    }

    /** `add(instruction)`: append one instruction. */
    method Add(instruction: T)
      modifies this
      ensures instructions == old(instructions) + [instruction]
    {
      instructions := instructions + [instruction];
    }

    /** `add(code)`, `operator+=` and `operator+`: append every instruction of `other`, in order. The
        `+` operator is a non-const member returning a reference, so it appends to and returns this object. */
    method AddCode(other: Code<T>)
      modifies this
      ensures instructions == old(instructions) + old(other.instructions)
      ensures other != this ==> other.instructions == old(other.instructions)
    {
      var added := other.instructions;
      var i := 0;
      while i < |added|
        invariant 0 <= i <= |added|
        invariant instructions == old(instructions) + added[..i]
        invariant other != this ==> other.instructions == added
      {
        instructions := instructions + [added[i]];
        i := i + 1;
      }
      assert added[..i] == added;
    }
  }

  /** The instruction `GetInstruction` returns for every index of the sequence. */
  function At<T>(instructions: seq<T>, index: int): (r: Result<T, Exception>)
    ensures r.Success? <==> 0 <= index < |instructions|
    ensures r.Success? ==> r.value == instructions[index]
  {
    if 0 <= index < |instructions| then Success(instructions[index]) else Failure(OutOfRange)
  }

  /** After appending, the old instructions keep their indices and the appended ones follow them. */
  lemma AppendKeepsIndices<T>(a: seq<T>, b: seq<T>, index: int)
    ensures 0 <= index < |a| ==> At(a + b, index) == At(a, index)
    ensures |a| <= index < |a| + |b| ==> At(a + b, index) == At(b, index - |a|)
    ensures index < 0 || index >= |a| + |b| ==> At(a + b, index) == Failure(OutOfRange)
  {
  }
}
