/**
 * General helpers: the first present value of a list, names given as one
 * string, a tuple or a list, a truncated rendering of a list, the values that
 * occur more than once in a projection of a list, and adding seconds to a time.
 */
module GeneralUtils {
  import opened Common

  /** `coalesce(*args)`: the first argument that is not `None`, else `None`. */
  function Coalesce<T>(args: seq<Option<T>>): (r: Option<T>)
    ensures r.None? <==> forall i :: 0 <= i < |args| ==> args[i].None?
    ensures r.Some? ==> exists k ::
      (0 <= k < |args| && args[k] == r && forall i :: 0 <= i < k ==> args[i].None?)
  {
    var k := FirstIndex(args, (a: Option<T>) => a.Some?);
    if k < 0 then None else args[k]
  }

  /** A `MultipleStrings` argument: one string, a tuple or a list of strings, or a value of another type. */
  datatype Names = Str(s: string) | TupleOf(items: seq<string>) | ListOf(items: seq<string>) | OtherValue

  function NamesTypeError(tupleName: string): string {
    "Type of " + tupleName + " must be str, tuple[str], or list[str]"
  }

  /**
   * `convert_names_to_tuple`: a tuple is returned as it is, a list as a copy
   * (still a list), a string as a one-element tuple; any other value raises a
   * type error naming the argument.
   */
  function ConvertNamesToTuple(names: Names, tupleName: string): (r: Result<Names>)
    ensures r.Err? <==> names.OtherValue?
    ensures r.Err? ==> r.error == NamesTypeError(tupleName)
    ensures names.Str? ==> r == Ok(TupleOf([names.s]))
    ensures names.TupleOf? || names.ListOf? ==> r == Ok(names)
    ensures r.Ok? ==> !r.value.Str? && !r.value.OtherValue?
  {
    match names
    case TupleOf(_) => Ok(names)
    case ListOf(items) => Ok(ListOf(items))
    case Str(s) => Ok(TupleOf([s]))
    case OtherValue => Err(NamesTypeError(tupleName))
  }

  /** Converting a converted value again changes nothing. */
  lemma ConvertNamesToTupleIdempotent(names: Names, tupleName: string)
    requires ConvertNamesToTuple(names, tupleName).Ok?
    ensures ConvertNamesToTuple(ConvertNamesToTuple(names, tupleName).value, tupleName) ==
      ConvertNamesToTuple(names, tupleName)
  {
  }

  /** The first `n` items, each between the quotation marks. */
  function QuotedPrefix(items: seq<string>, n: nat, quotation: string): (r: seq<string>)
    ensures |r| == if n <= |items| then n else |items|
    ensures forall i :: 0 <= i < |r| ==> r[i] == quotation + items[i] + quotation
  {
    if items == [] || n == 0 then []
    else [quotation + items[0] + quotation] + QuotedPrefix(items[1..], n - 1, quotation)
  }

  /** `max(max_len, 1)`: at least one item is always shown. */
  function ShownCount(maxLen: int): (n: nat)
    ensures n >= 1 && n >= maxLen
    ensures n == 1 || n == maxLen
  {
    if maxLen < 1 then 1 else maxLen
  }

  /**
   * `truncated_to_str`: the first `max(max_len, 1)` items, quoted and joined
   * by ", ", then ", ..." exactly when items were left out. A missing list
   * reads as an empty one, a missing quotation as no quotation.
   */
  function TruncatedToStr(items: Option<seq<string>>, maxLen: int, quotation: Option<string>): string {
    var all := if items.None? then [] else items.value;
    var n := ShownCount(maxLen);
    var q := if quotation.None? then "" else quotation.value;
    Join(QuotedPrefix(all, n, q), ", ") + (if |all| > n then ", ..." else "")
  }

  /** Lists no longer than the bound are shown whole, without the ellipsis. */
  lemma {:induction false} ShortListShownWhole(items: seq<string>, maxLen: int, quotation: string)
    requires |items| <= ShownCount(maxLen)
    ensures TruncatedToStr(Some(items), maxLen, Some(quotation)) ==
      Join(QuotedPrefix(items, |items|, quotation), ", ")
    ensures |QuotedPrefix(items, ShownCount(maxLen), quotation)| == |items|
  {
    QuotedPrefixLongEnough(items, ShownCount(maxLen), quotation);
  }

  /** Longer lists show exactly the bound's number of items, each quoted, and then the ellipsis. */
  lemma LongListTruncated(items: seq<string>, maxLen: int, quotation: string)
    requires |items| > ShownCount(maxLen)
    ensures var shown := QuotedPrefix(items, ShownCount(maxLen), quotation);
      && |shown| == ShownCount(maxLen)
      && (forall i :: 0 <= i < |shown| ==> shown[i] == quotation + items[i] + quotation)
      && TruncatedToStr(Some(items), maxLen, Some(quotation)) == Join(shown, ", ") + ", ..."
  {
  }

  /** Without a quotation the shown items are the items themselves. */
  lemma UnquotedPrefix(items: seq<string>, n: nat)
    ensures QuotedPrefix(items, n, "") == if n <= |items| then items[..n] else items
  {
    var r := QuotedPrefix(items, n, "");
    forall i | 0 <= i < |r| ensures r[i] == items[i] {
      assert r[i] == "" + items[i] + "";
    }
  }

  lemma {:induction false} QuotedPrefixLongEnough(items: seq<string>, n: nat, quotation: string)
    requires |items| <= n
    ensures QuotedPrefix(items, n, quotation) == QuotedPrefix(items, |items|, quotation)
  {
    if items != [] {
      QuotedPrefixLongEnough(items[1..], n - 1, quotation);
    }
  }

  /** Three items shown two at a time, in single quotes. */
  lemma TruncatedToStrExample()
    ensures TruncatedToStr(Some(["a", "b", "c"]), 2, Some("'")) == "'a', 'b', ..."
    ensures TruncatedToStr(None, 0, None) == ""
  {
    TwoOfThree("a", "b", "c", "'", 2);
    QuotedLiterals();
    assert QuotedPrefix([], 1, "") == [];
  }

  /** Three items with a bound of two: the first two, quoted, and the ellipsis. */
  lemma TwoOfThree(a: string, b: string, c: string, q: string, maxLen: int)
    requires maxLen == 2
    ensures TruncatedToStr(Some([a, b, c]), maxLen, Some(q)) == q + a + q + ", " + (q + b + q) + ", ..."
  {
    LongListTruncated([a, b, c], maxLen, q);
    var shown := QuotedPrefix([a, b, c], 2, q);
    assert shown == [q + a + q, q + b + q];
    assert shown[1..] == [q + b + q];
  }

  lemma QuotedLiterals()
    ensures "'" + "a" + "'" + ", " + ("'" + "b" + "'") + ", ..." == "'a', 'b', ..."
  {
  }

  // ---------------------------------------------------------------------------
  // Duplicate values
  // ---------------------------------------------------------------------------

  /** The number of occurrences of each projection (`collections.Counter`). */
  function Tally<K(==,!new)>(projections: seq<K>): (r: map<K, nat>)
    ensures forall k :: k in r <==> k in multiset(projections)
    ensures forall k :: k in r ==> r[k] == multiset(projections)[k]
  {
    if projections == [] then map[]
    else
      var init := projections[..|projections| - 1];
      var last := projections[|projections| - 1];
      var t := Tally(init);
      assert projections == init + [last];
      t[last := if last in t then t[last] + 1 else 1]
  }

  /** The projections occurring more than once, with their counts. */
  function Duplicates<K(==,!new)>(projections: seq<K>): (r: map<K, nat>)
    ensures forall k :: k in r <==> multiset(projections)[k] > 1
    ensures forall k :: k in r ==> r[k] == multiset(projections)[k]
  {
    var t := Tally(projections);
    map k | k in t && t[k] > 1 :: t[k]
  }

  /** The projection of a dictionary on the keys; a missing key projects to `None`. */
  function ProjectDict<V>(item: map<string, V>, keys: seq<string>): (r: seq<Option<V>>)
    ensures |r| == |keys|
    ensures forall i :: 0 <= i < |keys| ==> r[i] == if keys[i] in item then Some(item[keys[i]]) else None
  {
    if keys == [] then []
    else ProjectDict(item, keys[..|keys| - 1]) + [if keys[|keys| - 1] in item then Some(item[keys[|keys| - 1]]) else None]
  }

  function ProjectDicts<V>(items: seq<map<string, V>>, keys: seq<string>): (r: seq<seq<Option<V>>>)
    ensures |r| == |items|
    ensures forall i :: 0 <= i < |items| ==> r[i] == ProjectDict(items[i], keys)
  {
    if items == [] then []
    else ProjectDicts(items[..|items| - 1], keys) + [ProjectDict(items[|items| - 1], keys)]
  }

  /** The names as a sequence, once converted. */
  function NameItems(names: Names): seq<string>
    requires names.TupleOf? || names.ListOf?
  {
    names.items
  }

  /**
   * `find_duplicate_dict_values_by_keys`: exactly the projections on the keys
   * that occur more than once, each with its number of occurrences; keys of
   * an unsupported type raise.
   */
  function FindDuplicateDictValuesByKeys<V(==,!new)>(items: seq<map<string, V>>, keys: Names): (r: Result<map<seq<Option<V>>, nat>>)
    ensures r.Err? <==> keys.OtherValue?
    ensures r.Ok? ==> var ks := NameItems(ConvertNamesToTuple(keys, "keys").value);
      forall p :: (p in r.value <==> multiset(ProjectDicts(items, ks))[p] > 1) &&
        (p in r.value ==> r.value[p] == multiset(ProjectDicts(items, ks))[p])
  {
    var converted := ConvertNamesToTuple(keys, "keys");
    if converted.Err? then Err(converted.error)
    else Ok(Duplicates(ProjectDicts(items, NameItems(converted.value))))
  }

  /** The projection of an object on the fields, through its attribute lookup (`getattr(obj, f, None)`). */
  function ProjectObjects<O, V>(items: seq<O>, fields: seq<string>, attr: (O, string) -> Option<V>): (r: seq<seq<Option<V>>>)
    ensures |r| == |items|
    ensures forall i :: 0 <= i < |items| ==> |r[i]| == |fields|
    ensures forall i, j :: 0 <= i < |items| && 0 <= j < |fields| ==> r[i][j] == attr(items[i], fields[j])
  {
    if items == [] then []
    else
      var o := items[|items| - 1];
      ProjectObjects(items[..|items| - 1], fields, attr) + [seq(|fields|, j requires 0 <= j < |fields| => attr(o, fields[j]))]
  }

  /** `find_duplicate_object_values_by_fields`: the same rule over attributes, a missing attribute reading as `None`. */
  function FindDuplicateObjectValuesByFields<O, V(==,!new)>(items: seq<O>, fields: Names, attr: (O, string) -> Option<V>): (r: Result<map<seq<Option<V>>, nat>>)
    ensures r.Err? <==> fields.OtherValue?
    ensures r.Ok? ==> var fs := NameItems(ConvertNamesToTuple(fields, "fields").value);
      forall p :: (p in r.value <==> multiset(ProjectObjects(items, fs, attr))[p] > 1) &&
        (p in r.value ==> r.value[p] == multiset(ProjectObjects(items, fs, attr))[p])
  {
    var converted := ConvertNamesToTuple(fields, "fields");
    if converted.Err? then Err(converted.error)
    else Ok(Duplicates(ProjectObjects(items, NameItems(converted.value), attr)))
  }

  /** Items with pairwise distinct projections have no duplicates. */
  lemma {:induction false} DistinctProjectionsHaveNoDuplicates<K(!new)>(projections: seq<K>)
    requires forall i, j :: 0 <= i < j < |projections| ==> projections[i] != projections[j]
    ensures Duplicates(projections) == map[]
  {
    forall p | p in Duplicates(projections) ensures false {
      MultisetAtLeastTwo(projections, p);
    }
  }

  lemma {:induction false} MultisetAtLeastTwo<K(!new)>(s: seq<K>, p: K)
    requires multiset(s)[p] > 1
    ensures exists i, j :: 0 <= i < j < |s| && s[i] == p && s[j] == p
  {
    var init, last := s[..|s| - 1], s[|s| - 1];
    assert s == init + [last];
    if last == p {
      assert multiset(init)[p] > 0;
      assert p in init;
      var i :| 0 <= i < |init| && init[i] == p;
      assert s[i] == p && s[|s| - 1] == p;
    } else {
      MultisetAtLeastTwo(init, p);
      var i, j :| 0 <= i < j < |init| && init[i] == p && init[j] == p;
      assert s[i] == p && s[j] == p;
    }
  }

  /** `add_seconds`: the time that many seconds later. */
  function AddSeconds(time: int, seconds: int): int {
    time + seconds
  }

  /** Adding whole days moves the local date by as many days, in any time zone. */
  lemma AddWholeDaysMovesDate(time: int, days: int, offset: int)
    ensures LocalDate(AddSeconds(time, days * Day), offset) == LocalDate(time, offset) + days
  {
    assert time + days * Day + offset == (time + offset) + days * Day;
  }
}
