/**
 * Validation helpers: a percentage given as text, the check that a list of
 * records has no two records agreeing on the unique keys, and the
 * validate-then-save step of a serializer given either an instance or data.
 */
module ValidationUtils {
  import opened Common
  import opened Numbers
  import opened GeneralUtils

  /** The exceptions these helpers raise. */
  datatype Failure = ValidationError(message: string) | ValueError(message: string) | TypeError(message: string)

  function NotANumberMessage(value: string): string {
    "Value '" + value + "' is not a floating number."
  }

  const PercentageRangeMessage: string := "Percentage value should be between 0 and 100."

  /**
   * `validate_percentage`: the number the text reads as, when it lies between
   * 0 and 100, both included; a text that is not a number and a number out of
   * range raise a validation error, each with its own message.
   */
  function ValidatePercentage(value: string): (r: Result<real>)
    ensures ParseFloat(value).None? ==> r == Err(NotANumberMessage(value))
    ensures ParseFloat(value).Some? ==>
      (r.Ok? <==> 0.0 <= ParseFloat(value).value <= 100.0) &&
      (r.Ok? ==> r.value == ParseFloat(value).value) &&
      (r.Err? ==> r.error == PercentageRangeMessage)
  {
    var parsed := ParseFloat(value);
    if parsed.None? then Err(NotANumberMessage(value))
    else if !(0.0 <= parsed.value <= 100.0) then Err(PercentageRangeMessage)
    else Ok(parsed.value)
  }

  /** A whole number is a valid percentage exactly up to 100, and reads as itself. */
  lemma WholePercentages(n: nat)
    ensures ValidatePercentage(NatToString(n)).Ok? <==> n <= 100
    ensures n <= 100 ==> ValidatePercentage(NatToString(n)) == Ok(n as real)
    ensures n > 100 ==> ValidatePercentage(NatToString(n)) == Err(PercentageRangeMessage)
  {
    ParseFloatOfNatToString(n);
  }

  /** Text that is not a number is refused as such, before any range check. */
  lemma EmptyTextIsNotAPercentage()
    ensures ValidatePercentage("") == Err(NotANumberMessage(""))
  {
    ParseFloatRejectsNoDigits();
  }

  /**
   * The default message of a duplicate: the keys as text, then the first three
   * duplicated values as text, joined by ", ", with ", ..." when there are more.
   */
  function DuplicateValuesMessage(keysText: string, renderedValues: seq<string>): (r: string)
    ensures |renderedValues| > 3 ==> EndsWith(r, ", ...")
    ensures StartsWith(r, "Duplicate values for " + keysText + ": ")
    ensures |renderedValues| <= 3 ==> r == "Duplicate values for " + keysText + ": " + Join(renderedValues, ", ")
    ensures |renderedValues| > 3 ==>
      r == "Duplicate values for " + keysText + ": " + Join(renderedValues[..3], ", ") + ", ..."
  {
    var head := "Duplicate values for " + keysText + ": ";
    UnquotedPrefix(renderedValues, 3);
    assert |renderedValues| <= 3 ==> renderedValues[..|renderedValues|] == renderedValues;
    var shown := TruncatedToStr(Some(renderedValues), 3, None);
    var r := head + shown;
    assert r[..|head|] == head;
    var listed := Join(QuotedPrefix(renderedValues, 3, ""), ", ");
    var more := if |renderedValues| > 3 then ", ..." else "";
    assert shown == listed + more;
    assert r == (head + listed) + more;
    assert r[|r| - |more|..] == more;
    r
  }

  /**
   * `check_for_duplicate_values_in_unique_fields`: keys of an unsupported
   * type raise a type error; otherwise a validation error, with the message
   * built from the keys and the duplicates, is raised exactly when some
   * projection of the records on the keys occurs more than once.
   */
  function CheckForDuplicateValues<V(==,!new)>(
    items: seq<map<string, V>>, keys: Names, messageBuilder: (Names, map<seq<Option<V>>, nat>) -> string): (r: Option<Failure>)
    ensures keys.OtherValue? ==> r == Some(TypeError(NamesTypeError("keys")))
    ensures !keys.OtherValue? ==> var dups := FindDuplicateDictValuesByKeys(items, keys).value;
      (r.None? <==> dups == map[]) &&
      (r.Some? ==> r.value == ValidationError(messageBuilder(keys, dups)))
  {
    var found := FindDuplicateDictValuesByKeys(items, keys);
    if found.Err? then Some(TypeError(found.error))
    else if found.value != map[] then Some(ValidationError(messageBuilder(keys, found.value)))
    else None
  }

  /** Records that agree on every key are reported, whatever else they hold. */
  lemma AgreeingRecordsAreReported<V(!new)>(
    items: seq<map<string, V>>, keys: seq<string>, i: nat, j: nat, messageBuilder: (Names, map<seq<Option<V>>, nat>) -> string)
    requires i < j < |items|
    requires forall k :: k in keys ==> (k in items[i] <==> k in items[j]) && (k in items[i] ==> items[i][k] == items[j][k])
    ensures CheckForDuplicateValues(items, TupleOf(keys), messageBuilder).Some?
  {
    var projections := ProjectDicts(items, keys);
    assert projections[i] == projections[j];
    EqualElementsRepeat(projections, i, j);
    assert projections[i] in FindDuplicateDictValuesByKeys(items, TupleOf(keys)).value;
  }

  lemma EqualElementsRepeat<K>(s: seq<K>, i: nat, j: nat)
    requires i < j < |s| && s[i] == s[j]
    ensures multiset(s)[s[i]] >= 2
  {
    var a, b, c := s[..i], s[i + 1..j], s[j + 1..];
    assert s == a + [s[i]] + b + [s[j]] + c;
  }

  /** Records with pairwise different projections pass the check. */
  lemma DistinctRecordsPass<V(!new)>(
    items: seq<map<string, V>>, keys: seq<string>, messageBuilder: (Names, map<seq<Option<V>>, nat>) -> string)
    requires forall i, j :: 0 <= i < j < |items| ==> ProjectDict(items[i], keys) != ProjectDict(items[j], keys)
    ensures CheckForDuplicateValues(items, TupleOf(keys), messageBuilder).None?
  {
    var projections := ProjectDicts(items, keys);
    DistinctProjectionsHaveNoDuplicates(projections);
  }

  /** `InconsistentDataError`'s message. */
  function InconsistentDataMessage(description: string): (r: string)
    ensures EndsWith(r, description) && StartsWith(r, "Inconsistent data error: ")
  {
    var head := "Inconsistent data error: ";
    var r := head + description;
    assert r[..|head|] == head && r[|head|..] == description;
    r
  }

  const ExactlyOneMessage: string := "Exactly one of instance or data args should be specified."

  /** What `validate_and_save` ends with: the data saved, or the exception it raises. */
  datatype SaveOutcome<D> = Saved(data: D) | Raised(failure: Failure)

  /**
   * `validate_and_save`: exactly one of an instance and data must be given,
   * else a value error; an instance is saved through its serialized data. The
   * data is validated and saved, and a failure of either is raised again by
   * the default error handler. `attempt` gives the failure of validating and
   * saving the data, if any.
   */
  function ValidateAndSave<I, D>(instance: Option<I>, data: Option<D>, serialize: I -> D, attempt: D -> Option<Failure>): (r: SaveOutcome<D>)
    ensures instance.Some? == data.Some? ==> r == Raised(ValueError(ExactlyOneMessage))
    ensures instance.Some? && data.None? ==>
      r == if attempt(serialize(instance.value)).Some? then Raised(attempt(serialize(instance.value)).value) else Saved(serialize(instance.value))
    ensures data.Some? && instance.None? ==>
      r == if attempt(data.value).Some? then Raised(attempt(data.value).value) else Saved(data.value)
  {
    if instance.Some? == data.Some? then Raised(ValueError(ExactlyOneMessage))
    else
      var toSave := if data.Some? then data.value else serialize(instance.value);
      var failure := attempt(toSave);
      if failure.Some? then HandleSaveError(failure.value) else Saved(toSave)
  }

  /** `_handle_save_error`: by default the failure is raised again, unchanged. */
  function HandleSaveError<D>(failure: Failure): SaveOutcome<D> {
    Raised(failure)
  }
}
