/** What the walk over a signature list computes, stated without the walk:
    it succeeds exactly when every entry reads and the declaration rules
    hold, and then the arity verdict and the binding of entries to
    arguments follow from the entries alone. */
module ArgvWalk {
  import opened Values
  import opened ArgCheck
  import opened Signature
  import opened ArgvSpec

  /** Every entry of the list was read. */
  predicate AllRead(rs: seq<Result<Entry>>)
  {
    forall j :: 0 <= j < |rs| ==> rs[j].Ok?
  }

  /** The entries read from the first `i` results. */
  function ReadUpTo(rs: seq<Result<Entry>>, i: nat): (es: seq<Entry>)
    requires i <= |rs| && forall j :: 0 <= j < i ==> rs[j].Ok?
    ensures |es| == i && forall j :: 0 <= j < i ==> es[j] == rs[j].value
  {
    seq(i, j requires 0 <= j < i => rs[j].value)
  }

  /** Every entry of the signature list reads. */
  predicate AllParse(sigs: seq<Param>)
  {
    AllRead(Reads(sigs))
  }

  function Entries(sigs: seq<Param>): seq<Entry>
    requires AllParse(sigs)
  {
    ReadUpTo(Reads(sigs), |sigs|)
  }

  /** No required entry follows an optional one. */
  predicate OptionalLast(es: seq<Entry>)
  {
    forall j, k :: 0 <= j < k < |es| && es[j].optional ==> es[k].optional
  }

  /** A repeatable entry can only be the last one (so there is at most one). */
  predicate RepeatableLast(es: seq<Entry>)
  {
    forall j :: 0 <= j < |es| && es[j].repeatable ==> j == |es| - 1
  }

  predicate WellDeclared(es: seq<Entry>)
  {
    OptionalLast(es) && RepeatableLast(es)
  }

  predicate HasRepeatable(es: seq<Entry>)
  {
    |es| > 0 && es[|es| - 1].repeatable
  }

  /** Too few arguments: the first entry left without an argument is required. */
  predicate Short(n: nat, es: seq<Entry>)
  {
    n < |es| && !es[n].optional
  }

  /** The records after the entries `es` have been bound: argument `r` gets
      entry `r`, or the repeatable last entry when `r` is past the end, and
      every record is marked when there is a mismatch. */
  function Shape(recs0: seq<ArgRecord>, es: seq<Entry>, rep: bool, marked: bool): (r: seq<ArgRecord>)
    ensures |r| == |recs0|
  {
    seq(|recs0|, k requires 0 <= k < |recs0| =>
      var b := if k < |es| then Bind(recs0[k], es[k])
               else if rep && |es| > 0 then Bind(recs0[k], es[|es| - 1])
               else recs0[k];
      if marked then Mark(b) else b)
  }

  /** The state of the walk after a prefix `es` with no repeatable entry. */
  function PrefixState(recs0: seq<ArgRecord>, es: seq<Entry>): WalkState
  {
    var short := Short(|recs0|, es);
    WalkState(Counters(|es|, 0, |es| > 0 && es[|es| - 1].optional, false, short), Shape(recs0, es, false, short))
  }

  /** The state the walk ends in over a well-declared list `es`. */
  function FinalState(recs0: seq<ArgRecord>, es: seq<Entry>): WalkState
  {
    if HasRepeatable(es) then
      var short := Short(|recs0|, es);
      WalkState(Counters(Max(|es|, |recs0|) + 1, 1, es[|es| - 1].optional, false, short), Shape(recs0, es, true, short))
    else PrefixState(recs0, es)
  }

  lemma BindMark(r: ArgRecord, e: Entry)
    ensures Bind(Mark(r), e) == Mark(Bind(r, e))
  {
  }

  /** A required or optional entry that is not repeatable extends the prefix state. */
  lemma StepPlain(recs0: seq<ArgRecord>, es: seq<Entry>, e: Entry, signLen: nat)
    requires OptionalLast(es + [e]) && !e.repeatable
    requires forall j :: 0 <= j < |es| ==> !es[j].repeatable
    ensures Step(PrefixState(recs0, es), e, |es|, signLen) == Ok(PrefixState(recs0, es + [e]))
  {
    var es' := es + [e];
    var n := |recs0|;
    var st := PrefixState(recs0, es);
    var i := |es|;
    assert es'[i] == e;
    if i > 0 && es[i - 1].optional {
      assert es'[i - 1].optional;
    }
    var short := Short(n, es);
    var recs1 := if i < n then st.recs[i := Bind(st.recs[i], e)] else st.recs;
    var mm := !e.optional && i == n;
    var recs2 := if mm then MarkAll(recs1) else recs1;
    assert Short(n, es') == (short || mm) by {
      if n < i {
        assert es'[n] == es[n];
      }
    }
    forall k | 0 <= k < n ensures recs2[k] == Shape(recs0, es', false, short || mm)[k] {
      if k < i {
        assert es'[k] == es[k];
      } else if k == i {
        BindMark(recs0[k], e);
      }
    }
    assert recs2 == Shape(recs0, es', false, short || mm);
  }

  /** A repeatable last entry leads to the final state. */
  lemma StepRepeatable(recs0: seq<ArgRecord>, es: seq<Entry>, e: Entry)
    requires OptionalLast(es + [e]) && e.repeatable
    requires forall j :: 0 <= j < |es| ==> !es[j].repeatable
    ensures Step(PrefixState(recs0, es), e, |es|, |es| + 1) == Ok(FinalState(recs0, es + [e]))
  {
    var es' := es + [e];
    var n := |recs0|;
    var st := PrefixState(recs0, es);
    var i := |es|;
    assert es'[i] == e;
    if i > 0 && es[i - 1].optional {
      assert es'[i - 1].optional;
    }
    var short := Short(n, es);
    var recs1 := if i < n then st.recs[i := Bind(st.recs[i], e)] else st.recs;
    var mm := !e.optional && i == n;
    var recs2 := if mm then MarkAll(recs1) else recs1;
    assert Short(n, es') == (short || mm) by {
      if n < i {
        assert es'[n] == es[n];
      }
    }
    var recs3 := BindFrom(recs2, i + 1, e);
    forall k | 0 <= k < n ensures recs3[k] == Shape(recs0, es', true, short || mm)[k] {
      if k < i {
        assert es'[k] == es[k];
      } else {
        BindMark(recs0[k], e);
      }
    }
    assert recs3 == Shape(recs0, es', true, short || mm);
  }

  /** After a repeatable entry that is not last, the next entry throws. */
  lemma StepAfterRepeatable(st: WalkState, e: Entry, signI: nat, signLen: nat)
    requires st.c.repCount == 1 && st.c.lastRep
    ensures Step(st, e, signI, signLen).Throws?
  {
  }

  /** An entry may follow a list with no required-after-optional as long as
      it is optional whenever the last entry is. */
  lemma OptionalLastExtend(es: seq<Entry>, e: Entry)
    requires OptionalLast(es) && (|es| > 0 && es[|es| - 1].optional ==> e.optional)
    ensures OptionalLast(es + [e])
  {
    var es' := es + [e];
    forall j, k | 0 <= j < k < |es'| && es'[j].optional ensures es'[k].optional {
      assert es'[j] == es[j];
      if k < |es| {
        assert es'[k] == es[k];
      } else if j < |es| - 1 {
        assert es[|es| - 1].optional;
      }
    }
  }

  lemma ReadExtend(rs: seq<Result<Entry>>, i: nat)
    requires i < |rs| && forall j :: 0 <= j < i ==> rs[j].Ok?
    requires rs[i].Ok?
    ensures forall j :: 0 <= j < i + 1 ==> rs[j].Ok?
    ensures ReadUpTo(rs, i + 1) == ReadUpTo(rs, i) + [rs[i].value]
  {
    var a := ReadUpTo(rs, i + 1);
    var b := ReadUpTo(rs, i) + [rs[i].value];
    assert |a| == |b|;
    forall j | 0 <= j < |a| ensures a[j] == b[j] {
      if j < i {
        assert b[j] == ReadUpTo(rs, i)[j];
      }
    }
  }

  /** The walk from a well-behaved prefix succeeds exactly when the whole list
      reads and is well declared, and then ends in the final state. */
  lemma {:induction false} WalkFromPrefix(rs: seq<Result<Entry>>, recs0: seq<ArgRecord>, i: nat)
    requires i <= |rs| && forall j :: 0 <= j < i ==> rs[j].Ok?
    requires OptionalLast(ReadUpTo(rs, i))
    requires forall j :: 0 <= j < i ==> !ReadUpTo(rs, i)[j].repeatable
    ensures var w := WalkReads(rs, i, PrefixState(recs0, ReadUpTo(rs, i)));
      && (w.Ok? <==> AllRead(rs) && WellDeclared(ReadUpTo(rs, |rs|)))
      && (w.Ok? ==> w.value == FinalState(recs0, ReadUpTo(rs, |rs|)))
    decreases |rs| - i
  {
    var es := ReadUpTo(rs, i);
    var st := PrefixState(recs0, es);
    if i == |rs| {
      assert ReadUpTo(rs, |rs|) == es;
    } else if rs[i].Ok? {
      var e := rs[i].value;
      ReadExtend(rs, i);
      var es' := ReadUpTo(rs, i + 1);
      assert es' == es + [e];
      if !e.optional && st.c.lastOpt {
        assert es'[i - 1].optional && !es'[i].optional;
        if AllRead(rs) {
          assert ReadUpTo(rs, |rs|)[i - 1] == es'[i - 1] && ReadUpTo(rs, |rs|)[i] == es'[i];
        }
      } else {
        OptionalLastExtend(es, e);
        if e.repeatable {
          if i + 1 == |rs| {
            StepRepeatable(recs0, es, e);
            assert ReadUpTo(rs, |rs|) == es';
          } else {
            var st' := Step(st, e, i, |rs|).value;
            assert st'.c.repCount == 1 && st'.c.lastRep;
            if rs[i + 1].Ok? {
              StepAfterRepeatable(st', rs[i + 1].value, i + 1, |rs|);
            }
            if AllRead(rs) {
              assert ReadUpTo(rs, |rs|)[i] == e;
            }
          }
        } else {
          StepPlain(recs0, es, e, |rs|);
          WalkFromPrefix(rs, recs0, i + 1);
        }
      }
    }
  }

  lemma MarkShape(recs0: seq<ArgRecord>, es: seq<Entry>, rep: bool)
    ensures MarkAll(Shape(recs0, es, rep, false)) == Shape(recs0, es, rep, true)
  {
  }

  /** The walk of `simpli.argv`: it succeeds exactly when every entry reads
      and the declaration is well formed; then there is an argument-number
      mismatch exactly when a required entry has no argument or arguments
      are left over with no repeatable entry to take them, and argument `r`
      is bound to entry `r`, or to the repeatable last entry past the end. */
  lemma WalkTheorem(sigs: seq<Param>, args: seq<JsVal>)
    ensures var w := Walk(sigs, 0, WalkState(StartCounters, InitialRecords(args)));
      && (w.Ok? <==> AllParse(sigs) && WellDeclared(Entries(sigs)))
      && (w.Ok? ==>
        var es := Entries(sigs);
        var fin := Finish(w.value);
        && (fin.c.mismatch <==> Short(|args|, es) || (!HasRepeatable(es) && |args| > |es|))
        && fin.recs == Shape(InitialRecords(args), es, HasRepeatable(es), fin.c.mismatch))
  {
    var recs0 := InitialRecords(args);
    var rs := Reads(sigs);
    assert Shape(recs0, [], false, false) == recs0;
    assert PrefixState(recs0, ReadUpTo(rs, 0)) == WalkState(StartCounters, recs0);
    WalkFromPrefix(rs, recs0, 0);
    var w := Walk(sigs, 0, WalkState(StartCounters, recs0));
    if w.Ok? {
      var es := Entries(sigs);
      if !HasRepeatable(es) && |args| > |es| {
        assert !Short(|args|, es);
        MarkShape(recs0, es, false);
      }
    }
  }
}
