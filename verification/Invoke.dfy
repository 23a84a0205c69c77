/**
 invoke: arguments are pushed, the call is set up and the interpreter runs. The array-based
 interpreter is thereby proved against the reference semantics directly.
 */
module Invoke {
  import opened Leb
  import opened Wasm
  import opened Machine
  import opened Simulation
  import opened Refinement
  import opened Theorems
  import opened Interpreter
  import S = Structured
  import V = Validation

  /** The state with the arguments pushed. */
  function WithArgs(s: State, args: seq<Value>): State { s.(stack := s.stack + args) }

  method PushArgs(vm: Interpreter.Module, args: seq<Value>)
    requires vm.Valid() && vm.sp + |args| < vm.stack.Length
    modifies vm`sp, vm.stack
    ensures vm.Valid() && vm.Abs() == WithArgs(old(vm.Abs()), args) && vm.sp == old(vm.sp) + |args|
  {
    ghost var s := vm.Abs();
    var j := 0;
    assert s.stack + args[..0] == s.stack;
    while j < |args|
      invariant 0 <= j <= |args| && vm.Valid() && vm.sp == old(vm.sp) + j
      invariant vm.Abs() == WithArgs(s, args[..j])
    {
      vm.PushValue(args[j]);
      assert s.stack + args[..j] + [args[j]] == s.stack + args[..j + 1];
      j := j + 1;
    }
    assert args[..j] == args;
  }

  /** Running function i of a validated module on arguments of its parameter types: if the
      interpreter ends within limit turns without having gone astray at a call_indirect, it ends as
      the reference semantics does, with exactly the results in place of the arguments and nothing
      else on either stack changed. */
  method Invoke(vm: Interpreter.Module, ghost m: S.Module, ghost globals: seq<ValType>, i: nat,
                args: seq<Value>, limit: nat) returns (st: Status)
    requires vm.Valid() && vm.sp + |args| < vm.stack.Length
    requires Invocation(vm.prog, m, globals, i, WithArgs(vm.Abs(), args), vm.Abs().stack, args)
    requires vm.prog.imports + i < |vm.prog.funcs|
    requires SetupCall(WithArgs(vm.Abs(), args), vm.prog.funcs[vm.prog.imports + i]).Next?
    requires vm.sp + |args| + |vm.prog.funcs[vm.prog.imports + i].locals| < vm.stack.Length && 0 < vm.callstack.Length
    requires var s1 := Started(vm.prog, i, WithArgs(vm.Abs(), args));
             forall k: nat :: k <= limit ==> Fits(vm.prog, Run(vm.prog, s1, k), vm.stack.Length, vm.callstack.Length)
    modifies vm, vm.stack, vm.callstack, vm.globals, vm.bytes
    ensures vm.Valid()
    ensures var s := WithArgs(old(vm.Abs()), args);
            var r := CallResult(m, limit + 1, m.funcs[i], old(vm.Abs()).stack, args, s);
            WentAstray(vm.prog, m, Started(vm.prog, i, s), limit) ||
            match st
            case Running => true
            case Finished => r.Normal? && vm.Abs() == s.(stack := r.c.ops, globals := r.c.globals, mem := r.c.mem)
            case Raised(e) =>
              (r == S.Fail(e) && !e.CallSignatureMismatch?) || (r == S.Wild(Some(e)) && e.IntegerOverflow?)
  {
    hide Run, CallResult, Loaded, V.ModuleOk, WentAstray;
    ghost var below, s := vm.Abs().stack, WithArgs(vm.Abs(), args);
    PushArgs(vm, args);
    assert vm.csp == -1 by { assert |vm.Abs().frames| == vm.csp + 1; }
    ghost var s1 := Started(vm.prog, i, s);
    vm.SetupCall(vm.prog.funcs[vm.prog.imports + i]);
    st := vm.Interpret(limit);
    RunIsEval(vm.prog, m, globals, limit, i, s, below, args);
    assert Fits(vm.prog, Run(vm.prog, s1, limit), vm.stack.Length, vm.callstack.Length);
  }
}
