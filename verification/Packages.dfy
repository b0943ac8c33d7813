/** Merging packages into the configuration, `_recursive_merge` of homeassistant/config.py. */
module Packages {
  import opened Options
  import opened Dicts

  /** Parsed YAML; `truthy` tells what `remove_falsy` does with a scalar. */
  datatype Conf =
    | Null
    | Scalar(text: string, truthy: bool)
    | List(items: seq<Conf>)
    | Node(entries: Dict<Conf>)

  type Entries = Dict<Conf>

  function Lookup(d: Entries, k: string): (r: Option<Conf>)
    ensures r.Some? <==> Has(d, k)
    ensures r.Some? ==> Pair(k, r.value) in d
  {
    if Has(d, k) then Some(d[Place(d, k)].value) else None
  }

  predicate Truthy(c: Conf) {
    match c
    case Null => false
    case Scalar(_, t) => t
    case List(items) => items != []
    case Node(entries) => entries != []
  }

  function RemoveFalsy(items: seq<Conf>): seq<Conf> {
    if items == [] then []
    else (if Truthy(items[0]) then [items[0]] else []) + RemoveFalsy(items[1..])
  }

  function EnsureList(c: Option<Conf>): seq<Conf> {
    match c
    case None => []
    case Some(Null) => []
    case Some(List(items)) => items
    case Some(other) => [other]
  }

  /** Nothing but empty dictionaries, which the loop skips: merging these even into something
      that is no dictionary does not raise. */
  predicate OnlyEmpty(package: Entries) {
    forall p :: p in package ==> p.value == Node([])
  }

  /** The configuration after the merge and the key reported, if any; or an exception, when
      a dictionary meets something else. */
  datatype Merge = Merged(conf: Entries, duplicate: Option<string>) | Raised

  /** The rest of the loop over the package, with the key reported so far. */
  function MergeFrom(conf: Entries, package: Entries, duplicate: Option<string>): Merge
    decreases package
  {
    if package == [] then Merged(conf, duplicate)
    else
      var key, rest := package[0].key, package[1..];
      match package[0].value
      case Node(inner) =>
        if inner == [] then MergeFrom(conf, rest, duplicate)
        else
          var below := if Has(conf, key) then Lookup(conf, key).value else Node([]);
          if !below.Node? then
            if OnlyEmpty(inner) then MergeFrom(conf, rest, None) else Raised
          else
            var merged := MergeFrom(below.entries, inner, None);
            if merged.Raised? then Raised
            else MergeFrom(Put(conf, key, Node(merged.conf)), rest, merged.duplicate)
      case List(items) =>
        MergeFrom(Put(conf, key, List(RemoveFalsy(EnsureList(Lookup(conf, key)) + items))), rest, duplicate)
      case scalar =>
        if Has(conf, key) && Lookup(conf, key) != Some(Null) then Merged(conf, Some(key))
        else MergeFrom(Put(conf, key, scalar), rest, duplicate)
  }

  /** `_recursive_merge`. */
  method RecursiveMerge(conf: Entries, package: Entries) returns (m: Merge)
    ensures m == MergeFrom(conf, package, None)
    decreases package
  {
    var merged, duplicate: Option<string> := conf, None;
    for i := 0 to |package|
      invariant MergeFrom(conf, package, None) == MergeFrom(merged, package[i..], duplicate)
    {
      var key, value := package[i].key, package[i].value;
      assert package[i..][0] == package[i] && package[i..][1..] == package[i + 1..];
      match value {
        case Node(inner) =>
          if inner == [] { continue; }
          var below := if Has(merged, key) then Lookup(merged, key).value else Node([]);
          if !below.Node? {
            if !OnlyEmpty(inner) { return Raised; }
            duplicate := None;
            continue;
          }
          assert package[i] in package;
          var r := RecursiveMerge(below.entries, inner);
          if r.Raised? { return Raised; }
          merged := Put(merged, key, Node(r.conf));
          duplicate := r.duplicate;
        case List(items) =>
          merged := Put(merged, key, List(RemoveFalsy(EnsureList(Lookup(merged, key)) + items)));
        case scalar =>
          if Has(merged, key) && Lookup(merged, key) != Some(Null) { return Merged(merged, Some(key)); }
          merged := Put(merged, key, scalar);
      }
    }
    return Merged(merged, duplicate);
  }
}
