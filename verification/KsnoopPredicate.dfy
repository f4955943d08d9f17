/**
 * ksnoop's value descriptions and its predicate compiler: an operator and a number become flag
 * bits and a comparison value, which the BPF program evaluates against a 64-bit raw value.
 */
module KsnoopPredicate {
  import opened Machine

  /** The four KSNOOP_F_PREDICATE_* bits. */
  datatype Test = Test(eq: bool, noteq: bool, gt: bool, lt: bool)

  const NO_TEST := Test(false, false, false, false)

  predicate IsTest(t: Test) { t != NO_TEST } // flags & KSNOOP_F_PREDICATE_MASK

  /** The evaluator in the BPF program: any matching flag is enough, and no flag means no filter. */
  predicate Passes(t: Test, raw: u64, value: u64) {
    IsTest(t) ==>
      || (t.eq && raw == value)
      || (t.noteq && raw != value)
      || (t.gt && raw > value)
      || (t.lt && raw < value)
  }

  function Or(a: Test, b: Test): Test { Test(a.eq || b.eq, a.noteq || b.noteq, a.gt || b.gt, a.lt || b.lt) }

  /** `struct value`, filled in by the command-line parser. */
  class Value {
    var offset: u32
    var size: u32
    var ptr: bool
    var member: bool
    var test: Test
    var predicateValue: u64

    constructor (size: u32, ptr: bool)
      ensures this.size == size && this.ptr == ptr && offset == 0 && !member && test == NO_TEST && predicateValue == 0
    {
      this.size, this.ptr := size, ptr;
      offset, member, test, predicateValue := 0, false, NO_TEST, 0;
    }

    /** `op` is the run of operator characters that `%[!=><]` matched, `v` the number after it. */
    method PredicateToValue(op: string, v: s64) returns (ok: bool)
      requires OperatorChars(op)
      modifies this`test, this`predicateValue
      ensures ok == (Comparable(size, ptr) && Accepted(op))
      ensures ok ==> test == Or(old(test), Compiled(op)) && predicateValue == ToU64(v)
      ensures !ok && Comparable(size, ptr) ==>
                test == Or(old(test), Test(false, false, op[0] == '>', op[0] == '<')) && predicateValue == ToU64(v)
      ensures !Comparable(size, ptr) ==> test == old(test) && predicateValue == old(predicateValue)
    {
      if !ptr && (size == 0 || size > 8) { return false; }
      predicateValue := ToU64(v);
      if op == "==" {
        test := test.(eq := true);
        return true;
      } else if op == "!=" {
        test := test.(noteq := true);
        return true;
      }
      if op[0] == '>' { test := test.(gt := true); }
      else if op[0] == '<' { test := test.(lt := true); }
      if |op| == 1 { return true; }
      if op[1] != '=' { return false; }
      test := test.(eq := true);
      return true;
    }
  }

  /** Pointers, and scalars of one to eight bytes. */
  predicate Comparable(size: u32, ptr: bool) { ptr || 0 < size <= 8 }

  predicate Accepted(op: string) { |op| == 1 || (|op| > 1 && op[1] == '=') }

  function Compiled(op: string): Test
    requires op != []
  {
    if op == "==" then NO_TEST.(eq := true)
    else if op == "!=" then NO_TEST.(noteq := true)
    else Test(|op| > 1, false, op[0] == '>', op[0] == '<')
  }

  /** The comparison an operator stands for in ksnoop's usage text. */
  predicate Means(op: string, raw: u64, value: u64) {
    || (op == "==" && raw == value)
    || (op == "!=" && raw != value)
    || (op == ">" && raw > value)
    || (op == ">=" && raw >= value)
    || (op == "<" && raw < value)
    || (op == "<=" && raw <= value)
  }

  predicate Documented(op: string) { op in {"==", "!=", ">", ">=", "<", "<="} }

  /** What `%[!=><]` can match. */
  predicate OperatorChars(op: string) { op != [] && forall i :: 0 <= i < |op| ==> op[i] in "!=><" }

  /** A documented operator is accepted and filters by its unsigned comparison, for all values. */
  lemma DocumentedOperatorsMeanThemselves(op: string, raw: u64, value: u64)
    requires Documented(op)
    ensures Accepted(op) && (Passes(Compiled(op), raw, value) <==> Means(op, raw, value))
  {}

  /**
   * The parser takes more than the usage text lists exactly for a lone `=` or `!`, which filter nothing, and
   * for three characters or more of which the second is `=`, which are read as the first "or equal":
   * so `!==` tests equality.
   */
  lemma UndocumentedOperators(op: string, raw: u64, value: u64)
    requires OperatorChars(op)
    ensures Accepted(op) && !Documented(op) <==> op in {"=", "!"} || (|op| >= 3 && op[1] == '=')
    ensures op in {"=", "!"} ==> Passes(Compiled(op), raw, value)
    ensures |op| >= 3 && op[0] in "!=" ==> (Passes(Compiled(op), raw, value) <==> raw == value)
    ensures |op| >= 3 && op[0] == '>' ==> (Passes(Compiled(op), raw, value) <==> raw >= value)
    ensures |op| >= 3 && op[0] == '<' ==> (Passes(Compiled(op), raw, value) <==> raw <= value)
  {
    ShortOperators(op);
  }

  lemma ShortOperators(op: string)
    requires OperatorChars(op)
    ensures |op| == 2 && op[1] == '=' ==> Documented(op)
    ensures |op| == 1 ==> op in {">", "<", "=", "!"}
  {
    assert |op| == 1 ==> op == [op[0]];
    assert |op| == 2 ==> op == [op[0], op[1]];
  }
}
