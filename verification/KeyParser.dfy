// src/keyparser/key_parser.c: from key names to key values by bisection, and back.
module KeyParser {
  import opened Strings

  datatype Table = Table(names: seq<string>, values: seq<int>)
  {
    predicate Valid() {
      |names| == |values| > 0
    }

    // Strictly ascending, up to case.
    predicate Sorted() {
      forall i, j :: 0 <= i < j < |names| ==> CaseCmp(names[i], names[j]) < 0
    }

    predicate Distinct() {
      forall i, j :: 0 <= i < j < |names| ==> CaseCmp(names[i], names[j]) != 0
    }
  }

  // The probes keyparser_getkey makes from (left, right) on: neither bound moves past
  // the probe, so it ends when a probe moves nothing.
  function Search(name: string, names: seq<string>, left: nat, right: nat): (r: Position)
    requires left <= right <= |names| && left < |names|
    ensures r.Found? ==> left <= r.at < |names| && (r.at < right || r.at == left)
    ensures r.Found? ==> SameUpToCase(name, names[r.at])
    decreases right - left
  {
    var mid := (left + right) / 2;
    CaseCmpZero(name, names[mid]);
    var cmp := CaseCmp(name, names[mid]);
    if cmp == 0 then Found(mid)
    else if cmp > 0 then if mid == left then NotFound else Search(name, names, mid, right)
    else if mid == right then NotFound else Search(name, names, left, mid)
  }

  // keyparser_getkey: it stays inside any table that is not empty, and ends.
  method GetKey(name: string, t: Table) returns (key: int)
    requires t.Valid()
    ensures key == match Search(name, t.names, 0, |t.names|) case NotFound => -1 case Found(i) => t.values[i]
    ensures t.Sorted() ==> forall k :: 0 <= k < |t.names| && SameUpToCase(name, t.names[k]) ==> key == t.values[k]
    ensures (forall k :: 0 <= k < |t.names| ==> !SameUpToCase(name, t.names[k])) ==> key == -1
  {
    SortedFindsAll(name, t);
    var left, right := 0, |t.names|;
    while true
      invariant 0 <= left <= right <= |t.names| && left < |t.names|
      invariant Search(name, t.names, left, right) == Search(name, t.names, 0, |t.names|)
      decreases right - left
    {
      var cmp := CaseCmp(name, t.names[(left + right) / 2]);
      if cmp == 0 {
        return t.values[(left + right) / 2];
      }
      var oleft, oright := left, right;
      if cmp > 0 {
        left := (left + right) / 2;
      } else {
        right := (left + right) / 2;
      }
      if left == oleft && right == oright {
        break;
      }
    }
    return -1;
  }

  lemma SortedFindsAll(name: string, t: Table)
    requires t.Valid()
    ensures t.Sorted() ==> forall k :: 0 <= k < |t.names| && SameUpToCase(name, t.names[k]) ==>
                             Search(name, t.names, 0, |t.names|) == Found(k)
  {
    if t.Sorted() {
      forall k | 0 <= k < |t.names| && SameUpToCase(name, t.names[k])
        ensures Search(name, t.names, 0, |t.names|) == Found(k)
      {
        CaseCmpZero(name, t.names[k]);
        SearchFinds(name, t, 0, |t.names|, k);
      }
    }
  }

  datatype KeyName = Null | Name(text: string)

  // keyparser_getname: the first name with that value.
  method GetName(i: int, t: Table) returns (name: KeyName)
    requires t.Valid()
    ensures name.Null? <==> i !in t.values
    ensures name.Name? ==> exists j :: 0 <= j < |t.values| && t.values[j] == i && t.names[j] == name.text
                                       && i !in t.values[..j]
  {
    var j := 0;
    while j < |t.names|
      invariant 0 <= j <= |t.names| && i !in t.values[..j]
    {
      if t.values[j] == i {
        return Name(t.names[j]);
      }
      j := j + 1;
    }
    return Null;
  }

  lemma CmpBelow(name: string, a: string, b: string)
    requires CaseCmp(name, a) == 0
    ensures CaseCmp(name, b) < 0 <==> CaseCmp(a, b) < 0
    ensures CaseCmp(name, b) == 0 <==> CaseCmp(a, b) == 0
  {
    hide CaseCmp;
    CaseCmpSwap(name, a);
    CaseCmpSwap(name, b);
    CaseCmpSwap(a, b);
    if CaseCmp(name, b) <= 0 { CaseCmpTransitive(a, name, b); }
    if CaseCmp(a, b) <= 0 { CaseCmpTransitive(name, a, b); }
    if CaseCmp(b, name) <= 0 { CaseCmpTransitive(b, name, a); }
    if CaseCmp(b, a) <= 0 { CaseCmpTransitive(b, a, name); }
  }

  // In an ascending table a search that starts around a name's place ends there.
  lemma {:induction false} SearchFinds(name: string, t: Table, left: nat, right: nat, k: nat)
    requires t.Valid() && t.Sorted() && left <= right <= |t.names| && left < |t.names|
    requires left <= k < right && CaseCmp(name, t.names[k]) == 0
    ensures Search(name, t.names, left, right) == Found(k)
    decreases right - left
  {
    hide CaseCmp;
    var mid := (left + right) / 2;
    CmpBelow(name, t.names[k], t.names[mid]);
    CaseCmpSwap(t.names[k], t.names[mid]);
    if k < mid {
      SearchFinds(name, t, left, mid, k);
    } else if k > mid {
      SearchFinds(name, t, mid, right, k);
    }
  }

  // Over an ascending table the search succeeds exactly on the names present, at their
  // own place.
  lemma SortedSearchExact(name: string, t: Table, k: nat)
    requires t.Valid() && t.Sorted()
    ensures Search(name, t.names, 0, |t.names|) == Found(k)
       <==> k < |t.names| && SameUpToCase(name, t.names[k])
  {
    if k < |t.names| && SameUpToCase(name, t.names[k]) {
      CaseCmpZero(name, t.names[k]);
      SearchFinds(name, t, 0, |t.names|, k);
    }
  }

  // getkey(getname(v)) is v for every value of an ascending table, duplicates included.
  method RoundTrip(v: int, t: Table) returns (key: int)
    requires t.Valid() && t.Sorted() && v in t.values
    ensures key == v
  {
    var name := GetName(v, t);
    ghost var j :| 0 <= j < |t.values| && t.values[j] == v && t.names[j] == name.text;
    CaseCmpZero(t.names[j], t.names[j]);
    SortedSearchExact(name.text, t, j);
    key := GetKey(name.text, t);
  }

  // Every name of the table is found, at its own place.
  predicate AllFound(t: Table)
    requires t.Valid()
  {
    forall k :: 0 <= k < |t.names| ==> Search(t.names[k], t.names, 0, |t.names|) == Found(k)
  }

  predicate FoundFrom(t: Table, first: nat, left: nat, right: nat)
    requires left <= right <= |t.names| && left < |t.names|
  {
    forall k :: first <= k < right ==> Search(t.names[k], t.names, left, right) == Found(k)
  }

  predicate SortedFrom(t: Table, first: nat, right: nat)
    requires right <= |t.names|
  {
    forall i, j :: first <= i < j < right ==> CaseCmp(t.names[i], t.names[j]) < 0
  }

  // Names that are all found by a search lie on the sides of each probe they have to.
  lemma {:induction false} FoundMeansSorted(t: Table, first: nat, left: nat, right: nat)
    requires t.Valid() && t.Distinct() && left <= right <= |t.names| && left < |t.names|
    requires left <= first <= left + 1 && FoundFrom(t, first, left, right)
    ensures SortedFrom(t, first, right)
    decreases right - left
  {
    hide CaseCmp;
    var mid := (left + right) / 2;
    if mid > left {
      SidesKnown(t, first, left, right);
      FoundMeansSorted(t, first, left, mid);
      FoundMeansSorted(t, mid + 1, mid, right);
      forall i, j | first <= i < j < right ensures CaseCmp(t.names[i], t.names[j]) < 0 {
        CaseCmpSwap(t.names[j], t.names[mid]);
        if i < mid < j {
          CaseCmpTransitive(t.names[i], t.names[mid], t.names[j]);
        }
      }
    }
  }

  lemma SidesKnown(t: Table, first: nat, left: nat, right: nat)
    requires t.Valid() && t.Distinct() && left <= right <= |t.names| && left < |t.names|
    requires left <= first <= left + 1 && FoundFrom(t, first, left, right)
    requires left < (left + right) / 2
    ensures var mid := (left + right) / 2;
            && (forall k :: first <= k < mid ==> CaseCmp(t.names[k], t.names[mid]) < 0)
            && (forall k :: mid < k < right ==> CaseCmp(t.names[k], t.names[mid]) > 0)
            && FoundFrom(t, first, left, mid) && FoundFrom(t, mid + 1, mid, right)
  {
    hide CaseCmp;
    var mid := (left + right) / 2;
    forall k | first <= k < right && k != mid
      ensures k < mid ==> CaseCmp(t.names[k], t.names[mid]) < 0 && Search(t.names[k], t.names, left, mid) == Found(k)
      ensures k > mid ==> CaseCmp(t.names[k], t.names[mid]) > 0 && Search(t.names[k], t.names, mid, right) == Found(k)
    {
      assert Search(t.names[k], t.names, left, right) == Found(k);
      CaseCmpSwap(t.names[k], t.names[mid]);
    }
  }

  // For a table of distinct names, every name is found exactly when the table is
  // ascending; the order is needed for each single entry to be reachable.
  lemma FoundIffSorted(t: Table)
    requires t.Valid() && t.Distinct()
    ensures AllFound(t) <==> t.Sorted()
  {
    if AllFound(t) {
      FoundMeansSorted(t, 0, 0, |t.names|);
    }
    if t.Sorted() {
      forall k | 0 <= k < |t.names| ensures Search(t.names[k], t.names, 0, |t.names|) == Found(k) {
        CaseCmpZero(t.names[k], t.names[k]);
        SortedSearchExact(t.names[k], t, k);
      }
    }
  }

  lemma {:induction false} CommonPrefix(p: string, a: string, b: string)
    ensures CaseCmp(p + a, p + b) == CaseCmp(a, b)
    decreases |p|
  {
    if p == [] {
      assert p + a == a && p + b == b;
    } else {
      CommonPrefix(p[1..], a, b);
      assert (p + a)[1..] == p[1..] + a && (p + b)[1..] == p[1..] + b;
    }
  }

  // The shipped table has these two names side by side in this order; in any such table
  // some name is not found although it is there.
  lemma ShippedOrderLosesAName(t: Table, i: nat)
    requires t.Valid() && t.Distinct() && i + 1 < |t.names|
    requires t.names[i] == "Key_Brightness" + "up" && t.names[i + 1] == "Key_Brightness" + "_Zero"
    ensures exists k :: 0 <= k < |t.names| && Search(t.names[k], t.names, 0, |t.names|) != Found(k)
  {
    CommonPrefix("Key_Brightness", "up", "_Zero");
    assert CaseCmp(t.names[i], t.names[i + 1]) > 0;
    FoundIffSorted(t);
  }
}
