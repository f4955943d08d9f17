/**
 * The stash decision of ksnoop's command-line parser, and what it is for: with predicates and
 * values of both sides, entry data must wait until the return predicates are known.
 */
module KsnoopParse {
  import opened Machine
  import opened KsnoopPredicate
  import opened KsnoopTrace
  import opened KsnoopStash

  /** A predicate as written: the operator and the number. */
  type Written = Option<(string, s64)>

  /** Some argument given belongs to this side, as the parser counts them. */
  ghost predicate TracesSide(items: seq<Item>, n: nat, entry: bool)
    requires n <= |items|
  {
    exists j :: 0 <= j < n && (entry <==> items[j].baseArg != KSNOOP_RETURN)
  }

  ghost predicate HasPredicate(written: seq<Written>, n: nat)
    requires n <= |written|
  {
    exists j :: 0 <= j < n && written[j].Some?
  }

  /** Some predicate, some entry value and some return value. */
  ghost predicate NeedsStash(items: seq<Item>, written: seq<Written>, n: nat)
    requires n <= |items| && n <= |written|
  {
    HasPredicate(written, n) && TracesSide(items, n, true) && TracesSide(items, n, false)
  }

  /** The counters of `parse_trace` over the `n` arguments given. */
  method DecideStash(items: seq<Item>, written: seq<Written>, n: nat) returns (stash: bool)
    requires n <= |items| && n <= |written|
    ensures stash <==> NeedsStash(items, written, n)
  {
    var nrPredicates, nrEntry, nrReturn := 0, 0, 0;
    for i := 0 to n
      invariant nrPredicates >= 0 && nrEntry >= 0 && nrReturn >= 0
      invariant nrPredicates > 0 <==> HasPredicate(written, i)
      invariant nrEntry > 0 <==> TracesSide(items, i, true)
      invariant nrReturn > 0 <==> TracesSide(items, i, false)
    {
      if written[i].Some? { nrPredicates := nrPredicates + 1; }
      if items[i].baseArg == KSNOOP_RETURN { nrReturn := nrReturn + 1; } else { nrEntry := nrEntry + 1; }
    }
    stash := nrPredicates > 0 && nrEntry > 0 && nrReturn > 0;
  }

  /**
   * `sp` is what the parser makes of `n` arguments, the others staying unused. Parameters have a type; the
   * return value may be void, and then takes no predicate.
   */
  ghost predicate Parsed(sp: Spec, written: seq<Written>, n: nat) {
    && ValidSpec(sp) && |written| == MAX_TRACES && n <= MAX_TRACES
    && (forall j :: 0 <= j < MAX_TRACES ==> CompiledFrom(sp.items[j], written[j]))
    && (forall j :: 0 <= j < n && Void(sp.items[j]) ==> sp.items[j].baseArg == KSNOOP_RETURN && written[j].None?)
    && (forall j :: n <= j < MAX_TRACES ==> Void(sp.items[j]))
    && (sp.stash <==> NeedsStash(sp.items, written, n))
  }

  predicate Void(it: Item) { it.typeId == 0 && !it.ptr }

  /** A side that is not traced has no predicate to fail and nothing to show. */
  lemma UntracedSide(sp: Spec, written: seq<Written>, n: nat, c: Context, entry: bool)
    requires Parsed(sp, written, n) && ValidContext(c) && !TracesSide(sp.items, n, entry)
    ensures WrittenHold(sp, written, c, entry) && !CapturesSome(sp, c, entry, 0)
  {}

  /** A side with a value that is not void, and whose reads succeed, has something to show. */
  lemma TracedSide(sp: Spec, written: seq<Written>, n: nat, c: Context, entry: bool, j: nat)
    requires Parsed(sp, written, n) && ValidContext(c) && ReadsSucceed(sp, c, entry)
    requires j < n && (entry <==> sp.items[j].baseArg != KSNOOP_RETURN) && !Void(sp.items[j])
    ensures CapturesSome(sp, c, entry, 0)
  {
    assert Eligible(sp.items[j], entry);
  }

  /**
   * Whatever arguments with at least one predicate are given, one call of the function produces an
   * event exactly when all predicates, of entry and of return, hold as written; and only one.
   */
  lemma CallIsShownIffPredicatesHold(sp: Spec, written: seq<Written>, n: nat, l: Live, ce: Context, cr: Context)
    requires Parsed(sp, written, n) && HasPredicate(written, n)
    requires ValidLive(l) && ValidContext(ce) && ValidContext(cr) && WantsPid(sp, ce) && WantsPid(sp, cr)
    requires ReadsSucceed(sp, ce, true) && ReadsSucceed(sp, cr, false)
    ensures ValidLive(Probe(sp, l, ce, true).0)
    ensures var (l1, atEntry) := Probe(sp, l, ce, true);
            var atReturn := Probe(sp, l1, cr, false).1;
            && (atEntry.Some? || atReturn.Some?
              <==> WrittenHold(sp, written, ce, true) && WrittenHold(sp, written, cr, false))
            && !(atEntry.Some? && atReturn.Some?)
  {
    hide Probe, CapturesSome, WrittenHold, AllHold, ReadsSucceed, TracesSide;
    ProbeIsValid(sp, l, ce, true);
    var l1 := Probe(sp, l, ce, true).0;
    HoldIsMeant(sp, written, ce, true);
    HoldIsMeant(sp, written, cr, false);
    if !TracesSide(sp.items, n, true) { UntracedSide(sp, written, n, ce, true); }
    if !TracesSide(sp.items, n, false) { UntracedSide(sp, written, n, cr, false); }
    var j := FirstPredicate(written, n);
    if sp.items[j].baseArg == KSNOOP_RETURN {
      TracedSide(sp, written, n, cr, false, j);
    } else {
      TracedSide(sp, written, n, ce, true, j);
    }
    SideOf(sp.items, n, j);
    if sp.stash {
      var a := SomeEntry(sp.items, n);
      TracedSide(sp, written, n, ce, true, a);
      StashEmitsIffAllHold(sp, l, ce, cr);
    } else {
      PlainEmitsIffAllHold(sp, l, ce, true);
      PlainEmitsIffAllHold(sp, l1, cr, false);
    }
  }

  lemma FirstPredicate(written: seq<Written>, n: nat) returns (j: nat)
    requires n <= |written| && HasPredicate(written, n)
    ensures j < n && written[j].Some?
  {
    j :| 0 <= j < n && written[j].Some?;
  }

  lemma SomeEntry(items: seq<Item>, n: nat) returns (j: nat)
    requires n <= |items| && TracesSide(items, n, true)
    ensures j < n && items[j].baseArg != KSNOOP_RETURN
  {
    j :| 0 <= j < n && items[j].baseArg != KSNOOP_RETURN;
  }

  lemma SideOf(items: seq<Item>, n: nat, j: nat)
    requires j < n <= |items|
    ensures TracesSide(items, n, items[j].baseArg != KSNOOP_RETURN)
  {}
}
