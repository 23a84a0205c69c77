/**
 All numeric instructions: the switch of interpret and section 4.3 of WebAssembly Core 1.0. Integer
 opcodes and truncations are defined by each side; what is left of floating point is one parameter.
 */
module Numerics {
  import opened Leb
  import opened Wasm
  import opened Integers
  import opened Conversions

  /** The switch of interpret on any numeric opcode. Reinterpretations keep the bits, the wrap to
      32 bits masks them, and floating point arithmetic is left to the unit. */
  function SwitchNum(alu: Alu, code: byte, args: seq<Value>): NumOutcome
    requires IsNum(code) && NumArgs(code, args)
  {
    if code >= 0xbc || code == 0xa7 then Gives(args[0].bits)
    else if IsInt(code) then
      ArgsAreWords(code, args);
      Switch(code, BitsOf(args))
    else if IsTrunc(code) then SwitchTrunc(code, args[0].bits)
    else Gives(alu(code, BitsOf(args)))
  }

  /** The result section 4.3 of the standard prescribes. */
  function StandardNum(alu: Alu, code: byte, args: seq<Value>): (r: NumOutcome)
    requires IsNum(code) && NumArgs(code, args)
    ensures !r.NoValue?
  {
    if code >= 0xbc || code == 0xa7 then Gives(args[0].bits)
    else if IsInt(code) then
      ArgsAreWords(code, args);
      Standard(code, BitsOf(args))
    else if IsTrunc(code) then StandardTrunc(code, args[0].bits)
    else Gives(alu(code, BitsOf(args)))
  }

  /** A shift by the width of its operand or more. */
  predicate FarShift(code: byte, args: seq<Value>)
    requires IsNum(code) && NumArgs(code, args)
  {
    IsInt(code) && (ArgsAreWords(code, args); ShiftsTooFar(code, BitsOf(args)))
  }

  /** A truncation to 32 bits of a double between the last integer in range and the next one. */
  predicate EarlyTrap(code: byte, args: seq<Value>)
    requires IsNum(code) && NumArgs(code, args)
  {
    IsTrunc(code) && TooEarly(code, args[0].bits)
  }

  lemma ArgsAreWords(code: byte, args: seq<Value>)
    requires IsNum(code) && IsInt(code) && NumArgs(code, args)
    ensures IntArgs(code, BitsOf(args))
  {
    hide NumSig;
  }

  lemma OneArgument(code: byte, args: seq<Value>)
    requires IsNum(code) && IsTrunc(code) && NumArgs(code, args)
    ensures |args| == 1
  {}

  /** Every numeric opcode does what the standard says, traps included, but for shifts by the width or
      more, which C leaves undefined, and for doubles that the truncations to 32 bits refuse too
      early. */
  lemma NumExact(alu: Alu, code: byte, args: seq<Value>)
    requires IsNum(code) && NumArgs(code, args)
    ensures SwitchNum(alu, code, args)
         == if FarShift(code, args) then NoValue
            else if EarlyTrap(code, args) then Traps(IntegerOverflow)
            else StandardNum(alu, code, args)
    ensures FarShift(code, args) ==> 0x74 <= code <= 0x76 || 0x86 <= code <= 0x88
    ensures EarlyTrap(code, args) ==> code in {0xaa, 0xab} && StandardNum(alu, code, args).Gives?
  {
    hide Switch, Standard, NumSig, SwitchTrunc, StandardTrunc;
    if IsInt(code) {
      ArgsAreWords(code, args);
      SwitchExact(code, BitsOf(args));
    }
    if IsTrunc(code) {
      OneArgument(code, args);
      TruncExact(code, args[0].bits);
    }
  }
}
