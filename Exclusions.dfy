/** The caller-supplied list of excluded group titles and the two ways the
    filters normalise it before matching. */
module Exclusions {
  import opened Text

  /** One element of a caller-supplied array: a string, or a value of any other type. */
  datatype Entry = Str(text: string) | NonString

  /** The `excludedCategories` argument: a string, an array, or any other value
      (`undefined`, `null`, a number, an object). */
  datatype Categories = One(name: string) | List(entries: seq<Entry>) | Other

  /** `s` is one of the strings the caller supplied. */
  predicate Supplies(c: Categories, s: string) {
    (c.One? && c.name == s) || (c.List? && Str(s) in c.entries)
  }

  /** `s.toLowerCase().trim()` */
  function Normal(s: string): string {
    Trim(Lower(s))
  }

  /** A normal form is blank exactly when the string it comes from is. */
  lemma NormalBlank(s: string)
    ensures Normal(s) == [] <==> Trim(s) == []
    ensures Normal(Normal(s)) == Normal(s)
  {
    LowerTrimCommute(s);
    NormalFormIsFixed(s);
  }

  /** A string with text at both ends keeps its length when normalised. */
  lemma NormalKeepsLength(v: string)
    requires v != [] && !IsSpace(v[0]) && !IsSpace(v[|v| - 1])
    ensures |Normal(v)| == |v|
  {
    LowerCharFacts(v[0]);
    LowerCharFacts(v[|v| - 1]);
    TrimmedIsFixed(Lower(v));
  }

  /** `entries.filter(c => typeof c === 'string' && c.trim() !== '').map(c => c.toLowerCase().trim())` */
  function FilterEntries(entries: seq<Entry>): (r: seq<string>)
    ensures forall g :: g in r <==> exists s :: Str(s) in entries && Trim(s) != [] && g == Normal(s)
  {
    if entries == [] then []
    else
      var rest := FilterEntries(entries[1..]);
      var head := if entries[0].Str? && Trim(entries[0].text) != [] then [Normal(entries[0].text)] else [];
      assert forall e :: e in entries <==> e == entries[0] || e in entries[1..];
      head + rest
  }

  /** Normalisation that drops blank strings and non-strings: a blank string
      gives the empty list, a non-blank one its normal form, an array the
      normal forms of its non-blank string entries. */
  function Normalize(c: Categories): (r: seq<string>)
    ensures forall g :: g in r <==> exists s :: Supplies(c, s) && Trim(s) != [] && g == Normal(s)
  {
    match c
    case One(name) => if Trim(name) != [] then [Normal(name)] else []
    case List(entries) => FilterEntries(entries)
    case Other => []
  }

  /** Every entry of the filtered list is non-blank and already in normal form. */
  lemma NormalizeGivesNormalForms(c: Categories, g: string)
    requires g in Normalize(c)
    ensures g != [] && Normal(g) == g
  {
    var s :| Supplies(c, s) && Trim(s) != [] && g == Normal(s);
    NormalBlank(s);
  }

  /** The element-wise normalisation, or the `TypeError` that calling
      `toLowerCase` on a non-string entry throws. */
  datatype Normalized = Ok(list: seq<string>) | TypeError

  /** `entries.map(c => c.toLowerCase().trim())` */
  function MapEntries(entries: seq<Entry>): (r: Normalized)
    ensures r.TypeError? <==> NonString in entries
    ensures r.Ok? ==> |r.list| == |entries|
    ensures r.Ok? ==> forall k :: 0 <= k < |entries| ==> entries[k].Str? && r.list[k] == Normal(entries[k].text)
  {
    if entries == [] then Ok([])
    else
      match entries[0]
      case NonString => TypeError
      case Str(s) =>
        var rest := MapEntries(entries[1..]);
        assert NonString in entries <==> NonString in entries[1..];
        if rest.TypeError? then TypeError else Ok([Normal(s)] + rest.list)
  }

  /** Normalisation without filtering: every supplied string, blank or not,
      gives one entry; any value that is neither a string nor an array gives
      the empty list. */
  function NormalizeAll(c: Categories): (r: Normalized)
    ensures r.TypeError? <==> c.List? && NonString in c.entries
    ensures r.Ok? ==> forall g :: g in r.list <==> exists s :: Supplies(c, s) && g == Normal(s)
    ensures r.Ok? ==> |r.list| == match c case One(_) => 1 case List(es) => |es| case Other => 0
  {
    match c
    case One(name) => Ok([Normal(name)])
    case List(entries) =>
      var r := MapEntries(entries);
      assert r.Ok? ==> forall g :: g in r.list <==> exists s :: Str(s) in entries && g == Normal(s) by {
        if r.Ok? {
          forall g ensures g in r.list <==> exists s :: Str(s) in entries && g == Normal(s) {
            if g in r.list {
              var k :| 0 <= k < |r.list| && r.list[k] == g;
              assert Str(entries[k].text) in entries;
            }
            if exists s :: Str(s) in entries && g == Normal(s) {
              var s :| Str(s) in entries && g == Normal(s);
              var k :| 0 <= k < |entries| && entries[k] == Str(s);
              assert r.list[k] == g;
            }
          }
        }
      }
      r
    case Other => Ok([])
  }

  /** A blank string (`' '`) excludes nothing under the filtering
      normalisation, but yields the one entry `''` under the element-wise one. */
  lemma BlankCategory(name: string)
    requires Trim(name) == []
    ensures Normalize(One(name)) == []
    ensures NormalizeAll(One(name)) == Ok([[]])
  {
    NormalBlank(name);
  }

  /** When every supplied value is a non-blank string, the two normalisations
      exclude the same group titles. */
  lemma NormalizationsAgree(c: Categories, g: string)
    requires c.List? ==> NonString !in c.entries
    requires forall s :: Supplies(c, s) ==> Trim(s) != []
    ensures NormalizeAll(c).Ok?
    ensures g in Normalize(c) <==> g in NormalizeAll(c).list
  {
  }
}
