/**
 * The evaluator registry: a table from evaluation kind to the evaluator class
 * that handles it, filled by a class decorator that registers one class for a
 * list of kinds.
 */
module EvaluatorRegistry {
  import opened Common
  import opened MaturityModels

  /** An evaluator class, known by its name. */
  type EvaluatorClass = string

  /** The start of the message raised on a duplicate registration, misspelling included; the kind and the classes follow it. */
  const DuplicateRegistration: string := "More than one evaluator assigend to evaluation kind "

  /** The table after registering the first kinds of a list, and whether that raised. */
  datatype Registration = Registration(entries: map<Kind, EvaluatorClass>, raised: bool)

  /**
   * Registering `klass` for `kinds`, kind after kind: a kind already mapped to
   * this very class raises, leaving the kinds handled before it assigned;
   * otherwise the kind is (re)assigned to the class, replacing any other class.
   */
  function Register(entries: map<Kind, EvaluatorClass>, kinds: seq<Kind>, klass: EvaluatorClass): (r: Registration)
    ensures forall k :: k in entries ==> k in r.entries
    ensures forall k :: k in r.entries && k !in kinds ==> k in entries && r.entries[k] == entries[k]
  {
    if kinds == [] then Registration(entries, false)
    else
      var prev := Register(entries, kinds[..|kinds| - 1], klass);
      var k := kinds[|kinds| - 1];
      if prev.raised then prev
      else if k in prev.entries && prev.entries[k] == klass then Registration(prev.entries, true)
      else Registration(prev.entries[k := klass], false)
  }

  /** Without a raise, every listed kind maps to the class and every other kind keeps its entry. */
  lemma {:induction false} RegisterAssignsListedKinds(entries: map<Kind, EvaluatorClass>, kinds: seq<Kind>, klass: EvaluatorClass)
    requires !Register(entries, kinds, klass).raised
    ensures forall k :: k in kinds ==> k in Register(entries, kinds, klass).entries && Register(entries, kinds, klass).entries[k] == klass
    ensures forall k :: k !in kinds ==> (k in Register(entries, kinds, klass).entries <==> k in entries)
    ensures forall k :: k !in kinds && k in entries ==> Register(entries, kinds, klass).entries[k] == entries[k]
  {
    if kinds != [] {
      var init := kinds[..|kinds| - 1];
      RegisterAssignsListedKinds(entries, init, klass);
      assert forall k :: k in kinds <==> k in init || k == kinds[|kinds| - 1];
    }
  }

  /** Two positions of the list name the same kind. */
  predicate HasDuplicate(kinds: seq<Kind>) {
    exists i, j :: 0 <= i < j < |kinds| && kinds[i] == kinds[j]
  }

  /** A listed kind is already mapped to the class. */
  predicate AlreadyMapped(entries: map<Kind, EvaluatorClass>, kinds: seq<Kind>, klass: EvaluatorClass) {
    exists k :: k in kinds && k in entries && entries[k] == klass
  }

  /**
   * Registration raises exactly when a listed kind is already mapped to the
   * same class, or when the list names a kind twice (its second occurrence
   * then finds the class the first one assigned). A different class already
   * in place never raises: it is replaced.
   */
  lemma {:induction false} RegisterRaisesIff(entries: map<Kind, EvaluatorClass>, kinds: seq<Kind>, klass: EvaluatorClass)
    ensures Register(entries, kinds, klass).raised <==> AlreadyMapped(entries, kinds, klass) || HasDuplicate(kinds)
  {
    if kinds != [] {
      var init := kinds[..|kinds| - 1];
      RegisterRaisesIff(entries, init, klass);
      if Register(entries, init, klass).raised {
        RaiseCauseExtends(entries, kinds, klass);
      } else {
        RegisterAssignsListedKinds(entries, init, klass);
        assert kinds == init + [kinds[|kinds| - 1]];
        LastStepRaisesIff(entries, init, kinds[|kinds| - 1], klass, Register(entries, init, klass).entries);
      }
    }
  }

  /** A cause of raising in a prefix is still one in the whole list. */
  lemma RaiseCauseExtends(entries: map<Kind, EvaluatorClass>, kinds: seq<Kind>, klass: EvaluatorClass)
    requires kinds != []
    requires AlreadyMapped(entries, kinds[..|kinds| - 1], klass) || HasDuplicate(kinds[..|kinds| - 1])
    ensures AlreadyMapped(entries, kinds, klass) || HasDuplicate(kinds)
  {
    var init := kinds[..|kinds| - 1];
    if AlreadyMapped(entries, init, klass) {
      var k :| k in init && k in entries && entries[k] == klass;
      assert k in kinds;
    } else {
      var i, j :| 0 <= i < j < |init| && init[i] == init[j];
      assert kinds[i] == kinds[j];
    }
  }

  /**
   * The step for the last kind, after a prefix `init` that did not raise and
   * left the table `prev`: it raises exactly when a cause appears in the whole list.
   */
  lemma LastStepRaisesIff(
    entries: map<Kind, EvaluatorClass>, init: seq<Kind>, last: Kind, klass: EvaluatorClass, prev: map<Kind, EvaluatorClass>
  )
    requires !AlreadyMapped(entries, init, klass) && !HasDuplicate(init)
    requires forall k :: k in init ==> k in prev && prev[k] == klass
    requires forall k :: k !in init ==> (k in prev <==> k in entries)
    requires forall k :: k !in init && k in entries ==> prev[k] == entries[k]
    ensures (last in prev && prev[last] == klass) <==>
      AlreadyMapped(entries, init + [last], klass) || HasDuplicate(init + [last])
  {
    var kinds := init + [last];
    assert forall k :: k in kinds <==> k in init || k == last;
    if last in init {
      var i :| 0 <= i < |init| && init[i] == last;
      assert kinds[i] == kinds[|kinds| - 1];
    } else {
      forall i, j | 0 <= i < j < |kinds|
        ensures kinds[i] != kinds[j]
      {
        assert kinds[i] == init[i];
        if j < |kinds| - 1 {
          assert kinds[j] == init[j];
        }
      }
    }
  }

  /** The registry the decorator fills. */
  class Registry {
    var entries: map<Kind, EvaluatorClass>

    constructor()
      ensures entries == map[]
    {
      entries := map[];
    }

    /** The class registered for the kind, if any. */
    function Get(kind: Kind): (r: Option<EvaluatorClass>)
      reads this
      ensures r.Some? <==> kind in entries
      ensures r.Some? ==> r.value == entries[kind]
    {
      if kind in entries then Some(entries[kind]) else None
    }

    /**
     * The decorator: registers `klass` for each kind in turn and returns the
     * class itself, or raises (keeping the assignments made before the raise).
     */
    method RegisterClass(kinds: seq<Kind>, klass: EvaluatorClass) returns (r: Result<EvaluatorClass>)
      modifies this
      ensures entries == Register(old(entries), kinds, klass).entries
      ensures r.Err? <==> Register(old(entries), kinds, klass).raised
      ensures r.Ok? ==> r.value == klass
    {
      var i := 0;
      while i < |kinds|
        invariant 0 <= i <= |kinds|
        invariant Register(old(entries), kinds[..i], klass) == Registration(entries, false)
      {
        assert kinds[..i + 1][..i] == kinds[..i];
        if kinds[i] in entries && entries[kinds[i]] == klass {
          assert Register(old(entries), kinds[..i + 1], klass).raised;
          RegisterStopsAfterRaise(old(entries), kinds, klass, i + 1);
          return Err(DuplicateRegistration);
        }
        entries := entries[kinds[i] := klass];
        i := i + 1;
      }
      assert kinds[..i] == kinds;
      return Ok(klass);
    }
  }

  /** Once a prefix has raised, the rest of the list changes nothing. */
  lemma {:induction false} RegisterStopsAfterRaise(entries: map<Kind, EvaluatorClass>, kinds: seq<Kind>, klass: EvaluatorClass, n: nat)
    requires n <= |kinds|
    requires Register(entries, kinds[..n], klass).raised
    ensures Register(entries, kinds, klass) == Register(entries, kinds[..n], klass)
    decreases |kinds| - n
  {
    if n < |kinds| {
      assert kinds[..n + 1][..n] == kinds[..n];
      RegisterStopsAfterRaise(entries, kinds, klass, n + 1);
    } else {
      assert kinds[..n] == kinds;
    }
  }
}
