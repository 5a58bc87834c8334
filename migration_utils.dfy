/**
 * The string-unification migration operations: before a unique constraint is
 * added, every object after the first of a cluster of objects with equal
 * values (of the field and the fields it is unique with respect to) gets a
 * unified value; undoing the migration reverts those values when the
 * operation allows it.
 */
module MigrationUtils {
  import opened Common
  import opened Numbers
  import opened GeneralUtils

  /** An object of the migrated table: its pk, the values of the `with_respect_to` fields, and the value of the unified field. */
  datatype Row = Row(pk: nat, scope: seq<Option<string>>, value: Option<string>)

  /** The values that must become unique together. */
  function Key(r: Row): (seq<Option<string>>, Option<string>) {
    (r.scope, r.value)
  }

  /**
   * `_objects_have_same_field_values` over the fields to unify: exactly one
   * missing object gives false; two missing objects raise, as reading a field
   * of `None` does.
   */
  function ObjectsHaveSameFieldValues(a: Option<Row>, b: Option<Row>): (r: Result<bool>)
    ensures r.Err? <==> a.None? && b.None?
    ensures r == Ok(true) <==> a.Some? && b.Some? && Key(a.value) == Key(b.value)
  {
    if a.None? != b.None? then Ok(false)
    else if a.None? then Err("'NoneType' object has no attribute")
    else Ok(a.value.scope == b.value.scope && a.value.value == b.value.value)
  }

  // ---------------------------------------------------------------------------
  // The two unification strategies
  // ---------------------------------------------------------------------------

  datatype Strategy = UnifyString | UnifyShortString(maxLength: int)

  const UnifiedMarker: string := "__UNIFIED__"
  const NullMarker: string := "__UNIFIED_NULL__"

  /** `UnifyStringField.unify_value`: `v__UNIFIED__k__`, or `__UNIFIED_NULL__k__` for a missing value. */
  function UnifyLong(value: Option<string>, occurrence: nat): string {
    if value.None? then NullMarker + NatToString(occurrence) + "__"
    else value.value + UnifiedMarker + NatToString(occurrence) + "__"
  }

  /** The number of decimal digits that end `s`. */
  function TrailingDigitCount(s: string): (n: nat)
    ensures n <= |s| && AllDigits(s[|s| - n..])
    ensures n < |s| ==> !IsDigit(s[|s| - n - 1])
  {
    if s != [] && IsDigit(s[|s| - 1]) then
      var n := TrailingDigitCount(s[..|s| - 1]) + 1;
      assert s[|s| - n..] == s[..|s| - 1][|s| - n..] + [s[|s| - 1]];
      n
    else 0
  }

  /** Digits after a non-digit are exactly the trailing digits. */
  lemma {:induction false} TrailingDigitsAfterNonDigit(a: string, d: string)
    requires AllDigits(d)
    requires a != [] && !IsDigit(a[|a| - 1])
    ensures TrailingDigitCount(a + d) == |d|
  {
    if d == [] {
      assert a + d == a;
    } else {
      assert (a + d)[..|a + d| - 1] == a + d[..|d| - 1];
      TrailingDigitsAfterNonDigit(a, d[..|d| - 1]);
    }
  }

  /**
   * The part of `s` before its final `marker`, digits and `__`, when `s` has
   * that shape: the text a regular expression `(.*)marker(\d+)__` captures.
   * The digits are the whole run of digits before the final `__`, since the
   * marker ends with `_`.
   */
  function BeforeMarker(s: string, marker: string): (r: Option<string>)
    ensures r.Some? ==> exists d :: |d| >= 1 && AllDigits(d) && s == r.value + marker + d + "__"
  {
    if !EndsWith(s, "__") then None
    else
      var x := s[..|s| - 2];
      var n := TrailingDigitCount(x);
      var head := x[..|x| - n];
      if n >= 1 && EndsWith(head, marker) then
        var p := head[..|head| - |marker|];
        assert s == p + marker + x[|x| - n..] + "__" by {
          assert head == p + marker;
          assert x == head + x[|x| - n..];
          assert s == x + "__";
        }
        Some(p)
      else None
  }

  /** The shape is recognised whatever the text before the marker. */
  lemma BeforeMarkerFinds(p: string, marker: string, d: string)
    requires marker != [] && marker[|marker| - 1] == '_'
    requires |d| >= 1 && AllDigits(d)
    ensures BeforeMarker(p + marker + d + "__", marker) == Some(p)
  {
    var s := p + marker + d + "__";
    var x := s[..|s| - 2];
    assert x == (p + marker) + d;
    TrailingDigitsAfterNonDigit(p + marker, d);
    assert x[..|x| - |d|] == p + marker;
  }

  /** The regular expression `__UNIFIED_NULL__(\d+)__` matches the whole of `s`. */
  predicate IsUnifiedNull(s: string) {
    var before := BeforeMarker(s, NullMarker);
    before.Some? && before.value == ""
  }

  /** `UnifyStringField.revert_unified_value`. */
  function RevertLong(value: Option<string>): Option<string> {
    if value.None? || IsUnifiedNull(value.value) then None
    else
      var m := BeforeMarker(value.value, UnifiedMarker);
      if m.None? then value else m
  }

  /** Reverting a unified value gives back the original, a missing value included. */
  lemma {:induction false} RevertLongUnifyLong(value: Option<string>, occurrence: nat)
    ensures RevertLong(Some(UnifyLong(value, occurrence))) == value
  {
    var k := NatToString(occurrence);
    if value.None? {
      assert NullMarker + k + "__" == "" + NullMarker + k + "__";
      BeforeMarkerFinds("", NullMarker, k);
    } else {
      var p := value.value;
      var s := p + UnifiedMarker + k + "__";
      BeforeMarkerFinds(p, UnifiedMarker, k);
      var x := s[..|s| - 2];
      assert x == (p + UnifiedMarker) + k;
      TrailingDigitsAfterNonDigit(p + UnifiedMarker, k);
      var head := x[..|x| - |k|];
      assert head == p + UnifiedMarker;
      if |head| == |NullMarker| {
        assert head[|head| - 3] == 'D' && NullMarker[13] == 'L';
      }
      assert head != NullMarker;
    }
  }

  /** A value that does not end with `__` is never changed by the revert. */
  lemma RevertLongKeepsPlainValues(v: string)
    requires !EndsWith(v, "__")
    ensures RevertLong(Some(v)) == Some(v)
  {
  }

  /** The suffix of the short strategy: `_<pk>`. */
  function ShortSuffix(pk: nat): string {
    "_" + NatToString(pk)
  }

  /** The short strategy's replacement of a missing value: `__N<pk>`. */
  function ShortNull(pk: nat): string {
    "__N" + NatToString(pk)
  }

  /**
   * `UnifyShortStringField.unify_value`: the value cut to leave room for
   * `_<pk>`, then `_<pk>`; only the end of `_<pk>` when it does not fit,
   * and the end of `__N<pk>` for a missing value.
   */
  function UnifyShort(value: Option<string>, pk: nat, maxLength: int): (r: string)
    ensures maxLength >= 1 ==> |r| <= maxLength
  {
    if value.None? then PySuffixFromNeg(ShortNull(pk), maxLength)
    else
      var suffix := ShortSuffix(pk);
      if maxLength <= |suffix| then PySuffixFromNeg(suffix, maxLength)
      else PyPrefix(value.value, maxLength - |suffix|) + suffix
  }

  /** `UnifyShortStringField.revert_unified_value`: strips a final `_<pk>` when the field is long enough to have kept it. */
  function RevertShort(value: Option<string>, pk: nat, maxLength: int): Option<string> {
    if value.None? || value.value == ShortNull(pk) then None
    else
      var suffix := ShortSuffix(pk);
      if maxLength <= |suffix| then value
      else if !EndsWith(value.value, suffix) then value
      else Some(value.value[..|value.value| - |suffix|])
  }

  /**
   * A short unification is undone exactly when the value fitted beside
   * `_<pk>`; when the field has no room beyond (the end of) `_<pk>`, only
   * when the value was that very text.
   */
  lemma RevertShortUnifyShort(v: string, pk: nat, maxLength: int)
    ensures RevertShort(Some(UnifyShort(Some(v), pk, maxLength)), pk, maxLength) == Some(v) <==>
      if maxLength > |ShortSuffix(pk)| then |v| <= maxLength - |ShortSuffix(pk)|
      else v == PySuffixFromNeg(ShortSuffix(pk), maxLength)
  {
    var suffix := ShortSuffix(pk);
    var u := UnifyShort(Some(v), pk, maxLength);
    if maxLength > |suffix| {
      var t := PyPrefix(v, maxLength - |suffix|);
      assert u == t + suffix;
      NotShortNull(t, pk);
      assert u[..|u| - |suffix|] == t;
      if t == v {
        assert |v| <= maxLength - |suffix|;
      }
    } else {
      assert |u| <= |suffix| < |ShortNull(pk)|;
    }
  }

  lemma NotShortNull(t: string, pk: nat)
    ensures t + ShortSuffix(pk) != ShortNull(pk)
  {
    var a, b := t + ShortSuffix(pk), ShortNull(pk);
    if |a| == |b| {
      assert |t| == 2;
      assert a[2] == '_' && b[2] == 'N';
    }
  }

  /** A missing value comes back missing when the field is long enough for `__N<pk>`. */
  lemma RevertShortUnifyShortNull(pk: nat, maxLength: int)
    requires maxLength >= |ShortNull(pk)|
    ensures RevertShort(Some(UnifyShort(None, pk, maxLength)), pk, maxLength) == None
  {
  }

  /** `unify_value` of the operation's strategy. */
  function UnifyValue(strategy: Strategy, value: Option<string>, occurrence: nat, pk: nat): Option<string> {
    match strategy
    case UnifyString => Some(UnifyLong(value, occurrence))
    case UnifyShortString(maxLength) => Some(UnifyShort(value, pk, maxLength))
  }

  /** `revert_unified_value` of the operation's strategy. */
  function RevertValue(strategy: Strategy, value: Option<string>, pk: nat): Option<string> {
    match strategy
    case UnifyString => RevertLong(value)
    case UnifyShortString(maxLength) => RevertShort(value, pk, maxLength)
  }

  // ---------------------------------------------------------------------------
  // The operation
  // ---------------------------------------------------------------------------

  datatype Operation = Operation(
    field: string, withRespectTo: seq<string>, enableRevert: bool,
    unificationOrdering: seq<string>, processingChunkSize: int, strategy: Strategy)

  const DefaultChunkSize: int := 100

  /**
   * The operation's constructor: the names arguments are converted (and
   * raise when of another type); reverting is enabled by default for the
   * plain strategy and disabled for the short one; the chunk size is 100
   * unless given.
   */
  function MakeOperation(
    strategy: Strategy, field: string, withRespectTo: Names, enableRevert: Option<bool>,
    unificationOrdering: Names, chunkSize: Option<int>
  ): (r: Result<Operation>)
    ensures r.Err? <==> withRespectTo.OtherValue? || unificationOrdering.OtherValue?
    ensures r.Ok? ==>
      && r.value.strategy == strategy && r.value.field == field
      && r.value.enableRevert == (if enableRevert.Some? then enableRevert.value else strategy.UnifyString?)
      && r.value.processingChunkSize == (if chunkSize.Some? then chunkSize.value else DefaultChunkSize)
      && r.value.withRespectTo == ConvertNamesToTuple(withRespectTo, "with_respect_to").value.items
      && r.value.unificationOrdering == ConvertNamesToTuple(unificationOrdering, "unification_ordering").value.items
  {
    var wrt := ConvertNamesToTuple(withRespectTo, "with_respect_to");
    if wrt.Err? then Err(wrt.error)
    else
      var ordering := ConvertNamesToTuple(unificationOrdering, "unification_ordering");
      if ordering.Err? then Err(ordering.error)
      else
        Ok(Operation(
          field, wrt.value.items, if enableRevert.Some? then enableRevert.value else strategy.UnifyString?,
          ordering.value.items, if chunkSize.Some? then chunkSize.value else DefaultChunkSize, strategy))
  }

  /** The state of the unification scan: the current cluster's first object, the occurrence counter, the objects so far. */
  datatype ScanState = ScanState(representative: Option<Row>, occurrence: nat, out: seq<Row>)

  /** One object of the scan: a new cluster resets the counter; a second or later occurrence gets a unified value. */
  function Step(op: Operation, st: ScanState, obj: Row): ScanState {
    var same := ObjectsHaveSameFieldValues(Some(obj), st.representative) == Ok(true);
    var occurrence := (if same then st.occurrence else 0) + 1;
    var saved := if occurrence > 1 then obj.(value := UnifyValue(op.strategy, obj.value, occurrence, obj.pk)) else obj;
    ScanState(if same then st.representative else Some(obj), occurrence, st.out + [saved])
  }

  function Scan(op: Operation, rows: seq<Row>): ScanState {
    if rows == [] then ScanState(None, 0, [])
    else Step(op, Scan(op, rows[..|rows| - 1]), rows[|rows| - 1])
  }

  /** The length of the run of objects with equal keys that ends the sequence. */
  function RunLength(rows: seq<Row>): (n: nat)
    ensures rows != [] ==> 1 <= n <= |rows|
  {
    if rows == [] then 0
    else if |rows| >= 2 && Key(rows[|rows| - 2]) == Key(rows[|rows| - 1]) then RunLength(rows[..|rows| - 1]) + 1
    else 1
  }

  /** What the object at position `i` becomes: the first of its run is kept, the k-th gets the strategy's value for k. */
  function Unified(op: Operation, rows: seq<Row>, i: nat): Row
    requires i < |rows|
  {
    var k := RunLength(rows[..i + 1]);
    if k == 1 then rows[i] else rows[i].(value := UnifyValue(op.strategy, rows[i].value, k, rows[i].pk))
  }

  /** The scan's counter is the length of the current run, and its representative the run's first object. */
  lemma {:induction false} ScanTracksRun(op: Operation, rows: seq<Row>)
    ensures var st := Scan(op, rows);
      && |st.out| == |rows|
      && st.occurrence == RunLength(rows)
      && (rows == [] ==> st.representative.None?)
      && (rows != [] ==> st.representative == Some(rows[|rows| - RunLength(rows)]))
      && (rows != [] ==> Key(rows[|rows| - 1]) == Key(rows[|rows| - RunLength(rows)]))
  {
    if rows != [] {
      var init := rows[..|rows| - 1];
      ScanTracksRun(op, init);
      if init != [] {
        assert rows[|rows| - 2] == init[|init| - 1];
        var n := RunLength(init);
        assert rows[|rows| - 1 - n] == init[|init| - n];
      }
    }
  }

  /**
   * The scan keeps every object and its pk, leaves the first object of each
   * run of equal keys untouched and gives the k-th one the unified value for
   * k, the counter starting again with every run.
   */
  lemma {:induction false} ScanNumbersRuns(op: Operation, rows: seq<Row>)
    ensures |Scan(op, rows).out| == |rows|
    ensures forall i :: 0 <= i < |rows| ==> Scan(op, rows).out[i] == Unified(op, rows, i)
  {
    if rows != [] {
      var init := rows[..|rows| - 1];
      ScanNumbersRuns(op, init);
      LastIsUnified(op, rows);
      var out := Scan(op, rows).out;
      var prev := Scan(op, init).out;
      assert Scan(op, rows) == Step(op, Scan(op, init), rows[|rows| - 1]);
      forall i | 0 <= i < |rows| - 1 ensures out[i] == Unified(op, rows, i) {
        assert out[i] == prev[i];
        assert rows[..i + 1] == init[..i + 1];
      }
    }
  }

  /** The scan gives the last object the value its position in its run calls for. */
  lemma LastIsUnified(op: Operation, rows: seq<Row>)
    requires rows != []
    ensures |Scan(op, rows).out| == |rows|
    ensures Scan(op, rows).out[|rows| - 1] == Unified(op, rows, |rows| - 1)
  {
    var init := rows[..|rows| - 1];
    var last := rows[|rows| - 1];
    ScanTracksRun(op, init);
    ScanTracksRun(op, rows);
    var st := Scan(op, rows);
    assert st == Step(op, Scan(op, init), last);
    assert st.out[|rows| - 1] ==
      if st.occurrence > 1 then last.(value := UnifyValue(op.strategy, last.value, st.occurrence, last.pk)) else last;
    assert rows[..|rows| - 1 + 1] == rows;
  }

  /** `_unify_field`: one pass over the objects in iteration order, counting occurrences per cluster. */
  method UnifyField(op: Operation, rows: seq<Row>) returns (out: seq<Row>)
    ensures |out| == |rows|
    ensures forall i :: 0 <= i < |rows| ==> out[i] == Unified(op, rows, i)
  {
    var representative: Option<Row> := None;
    var occurrence: nat := 0;
    out := [];
    for i := 0 to |rows|
      invariant ScanState(representative, occurrence, out) == Scan(op, rows[..i])
    {
      var obj := rows[i];
      assert rows[..i + 1][..i] == rows[..i];
      if ObjectsHaveSameFieldValues(Some(obj), representative) != Ok(true) {
        representative := Some(obj);
        occurrence := 0;
      }
      occurrence := occurrence + 1;
      if occurrence > 1 {
        obj := obj.(value := UnifyValue(op.strategy, obj.value, occurrence, obj.pk));
      }
      out := out + [obj];
    }
    assert rows[..|rows|] == rows;
    ScanNumbersRuns(op, rows);
  }

  /** Every object reverted, as `revert_unified_value` gives it. */
  function RevertAll(op: Operation, rows: seq<Row>): (r: seq<Row>)
    ensures |r| == |rows|
    ensures forall i :: 0 <= i < |rows| ==> r[i] == rows[i].(value := RevertValue(op.strategy, rows[i].value, rows[i].pk))
  {
    if rows == [] then []
    else
      var last := rows[|rows| - 1];
      RevertAll(op, rows[..|rows| - 1]) + [last.(value := RevertValue(op.strategy, last.value, last.pk))]
  }

  /** `_undo_field_unification`: nothing when reverting is disabled, else every changed value is saved. */
  method UndoFieldUnification(op: Operation, rows: seq<Row>) returns (out: seq<Row>)
    ensures !op.enableRevert ==> out == rows
    ensures op.enableRevert ==> out == RevertAll(op, rows)
  {
    if !op.enableRevert {
      return rows;
    }
    out := [];
    for i := 0 to |rows|
      invariant out == RevertAll(op, rows[..i])
    {
      assert rows[..i + 1][..i] == rows[..i];
      var obj := rows[i];
      var reverted := RevertValue(op.strategy, obj.value, obj.pk);
      if reverted != obj.value {
        obj := obj.(value := reverted);
      }
      out := out + [obj];
    }
    assert rows[..|rows|] == rows;
  }

  /**
   * Undoing the plain unification restores the table, provided no original
   * value already had the shape of a unified one.
   */
  lemma UndoAfterUnifyRestores(op: Operation, rows: seq<Row>)
    requires op.strategy.UnifyString?
    requires forall i :: 0 <= i < |rows| ==> RevertLong(rows[i].value) == rows[i].value
    ensures |Scan(op, rows).out| == |rows|
    ensures RevertAll(op, Scan(op, rows).out) == rows
  {
    ScanNumbersRuns(op, rows);
    var out := Scan(op, rows).out;
    forall i | 0 <= i < |rows| ensures RevertAll(op, out)[i] == rows[i] {
      var k := RunLength(rows[..i + 1]);
      if k != 1 {
        RevertLongUnifyLong(rows[i].value, k);
      }
    }
  }
}
