/** The two decisions oct2py takes by looking at the bytecode of a calling
    frame: how many results the caller of a function expects (get_nout), and
    whether a Struct lookup of a missing key should create it (_is_allowed).
    A frame is reduced to what both read of it: its code string and the
    offset of the instruction it is executing. */
module Bytecode {

  datatype Option<T> = None | Some(value: T)

  /** One byte of a code string. */
  type Byte = b: int | 0 <= b < 256

  // Opcode numbers of the CPython 2 opcode table. The decisions below only
  // rely on these being distinct.
  const STOP_CODE: Byte := 0
  const POP_TOP: Byte := 1
  const UNPACK_SEQUENCE: Byte := 92
  const STORE_ATTR: Byte := 95
  const LOAD_CONST: Byte := 100
  // The two instructions a chain `s[k]` / `s.k` compiles its lookups to.
  const BINARY_SUBSCR: Byte := 25
  const LOAD_ATTR: Byte := 106

  /** What is read of a frame: `f_code.co_code` and `f_lasti`. */
  datatype Frame = Frame(code: seq<Byte>, lasti: nat)

  /** A call or attribute load is three bytes long, so the opcode that
      follows the instruction at `lasti` sits at `lasti + 3`. */
  predicate HasNextOp(f: Frame) {
    f.lasti + 3 < |f.code|
  }

  function NextOp(f: Frame): Byte
    requires HasNextOp(f)
  {
    f.code[f.lasti + 3]
  }

  /** The next opcode can be read, and so can its argument byte when it is an
      unpacking. */
  predicate HasNOut(f: Frame) {
    HasNextOp(f) && (NextOp(f) == UNPACK_SEQUENCE ==> f.lasti + 4 < |f.code|)
  }

  /** get_nout: the number of values the frame expects back from the call it
      is making. Unpacking into n targets expects n, a discarded expression
      statement expects none, anything else takes the one value. */
  function NOut(f: Frame): (n: nat)
    requires HasNOut(f)
    ensures NextOp(f) == UNPACK_SEQUENCE ==> n == f.code[f.lasti + 4]
    ensures NextOp(f) == POP_TOP ==> n == 0
    ensures NextOp(f) != UNPACK_SEQUENCE && NextOp(f) != POP_TOP ==> n == 1
  {
    var instruction := NextOp(f);
    if instruction == UNPACK_SEQUENCE then f.code[f.lasti + 4]
    else if instruction == POP_TOP then 0
    else 1
  }

  /** The result of get_nout depends on nothing but the next opcode and, for
      an unpacking, its argument byte: not on the rest of the code, nor on
      where in it the call sits. */
  lemma NOutDeterminedByNextInstruction(f: Frame, g: Frame)
    requires HasNOut(f) && HasNOut(g)
    requires NextOp(f) == NextOp(g)
    requires NextOp(f) == UNPACK_SEQUENCE ==> f.code[f.lasti + 4] == g.code[g.lasti + 4]
    ensures NOut(f) == NOut(g)
  {
  }

  /** The caller expects no value exactly when it discards the result or
      unpacks it into zero targets. */
  lemma NOutZero(f: Frame)
    requires HasNOut(f)
    ensures NOut(f) == 0 <==>
      NextOp(f) == POP_TOP || (NextOp(f) == UNPACK_SEQUENCE && f.code[f.lasti + 4] == 0)
  {
  }

  /** Struct._is_allowed: the next instruction stores an attribute, loads a
      constant, or is opcode 0 (after a one-byte subscript, the byte three
      further on is the high byte of the next instruction's argument, which
      reads as STOP_CODE when that argument is below 256). */
  function IsAllowed(f: Frame): (allowed: bool)
    requires HasNextOp(f)
    ensures allowed <==>
      NextOp(f) == STORE_ATTR || NextOp(f) == LOAD_CONST || NextOp(f) == STOP_CODE
  {
    NextOp(f) in [STORE_ATTR, LOAD_CONST, STOP_CODE]
  }

  /** The frames Struct.__getitem__ inspects can be read as far as the
      source reads them: the outer frame (`f_back.f_back`, which may be
      absent) first, and the direct caller (`f_back`) only when the outer one
      did not already decide. */
  predicate FramesReadable(caller: Frame, outer: Option<Frame>) {
    (outer.Some? ==> HasNextOp(outer.value)) &&
    (!(outer.Some? && IsAllowed(outer.value)) ==> HasNextOp(caller))
  }

  /** The creating decision of Struct.__getitem__ for a missing key. */
  function CreatesAt(caller: Frame, outer: Option<Frame>): (creates: bool)
    requires FramesReadable(caller, outer)
    ensures creates <==>
      exists f :: (f == caller || Some(f) == outer) && HasNextOp(f) && IsAllowed(f)
  {
    if outer.Some? && IsAllowed(outer.value) then
      assert HasNextOp(outer.value) && IsAllowed(outer.value);
      true
    else
      IsAllowed(caller)
  }

  /** `s.a.b = x`: the user frame's load of `a` is followed by STORE_ATTR, so
      the missing `a` is created, whatever the intermediate frame holds. */
  lemma AttributeStoreCreates(caller: Frame, user: Frame)
    requires HasNextOp(user) && NextOp(user) == STORE_ATTR
    ensures FramesReadable(caller, Some(user)) && CreatesAt(caller, Some(user))
  {
  }

  /** A read whose frames are followed neither by an attribute store nor by a
      constant load (nor opcode 0) never creates. */
  lemma TerminalReadDoesNotCreate(caller: Frame, outer: Option<Frame>)
    requires HasNextOp(caller) && !IsAllowed(caller)
    requires outer.Some? ==> HasNextOp(outer.value) && !IsAllowed(outer.value)
    ensures FramesReadable(caller, outer) && !CreatesAt(caller, outer)
  {
  }
}
