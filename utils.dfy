// Helpers shared by the citation generator: picking the registry entries of a
// cluster, splitting a string at a position, and comparing author lists.

module Utils {
  import opened Base

  /** A citeproc registry entry: its id, the family names of its authors
      (`ref.author`, `None` when the entry has none; a name without a family
      part has `None`), its disambiguated citation text (`ambig`) and the year
      it was issued (`ref.issued.year`, `None` when either is missing). */
  datatype RegistryItem = RegistryItem(id: string, authors: Option<seq<Option<string>>>, ambig: string, year: Option<int>)

  /** What reading `.length` of a missing author list throws. */
  const NoAuthorList := "TypeError: Cannot read properties of undefined (reading 'length')"

  // ---------------------------------------------------------------------
  // Relevant registry items

  /** The registry entries whose ids are relevant, in registry order. */
  function InRegistryOrder(reflist: seq<RegistryItem>, relevantIds: seq<string>): (r: seq<RegistryItem>)
    ensures |r| <= |reflist|
  {
    if reflist == [] then []
    else
      var rest := InRegistryOrder(reflist[1..], relevantIds);
      if reflist[0].id in relevantIds then [reflist[0]] + rest else rest
  }

  /** `reflist.find(x => x.id === id)`: the first entry with that id. */
  function FindById(reflist: seq<RegistryItem>, id: string): (r: Option<RegistryItem>)
    ensures r.Some? ==> r.value in reflist && r.value.id == id
    ensures r.None? <==> forall j :: 0 <= j < |reflist| ==> reflist[j].id != id
  {
    if reflist == [] then None
    else if reflist[0].id == id then Some(reflist[0])
    else FindById(reflist[1..], id)
  }

  /** The first entry per relevant id, in the order of the ids. */
  function InIdOrder(reflist: seq<RegistryItem>, relevantIds: seq<string>): (r: seq<Option<RegistryItem>>)
    ensures |r| == |relevantIds|
    ensures forall k :: 0 <= k < |r| ==> r[k] == FindById(reflist, relevantIds[k])
  {
    if relevantIds == [] then []
    else [FindById(reflist, relevantIds[0])] + InIdOrder(reflist, relevantIds[1..])
  }

  /** The registry items of a cluster, as a sequence of possibly missing
      entries: in registry order when `sorted`, in id order otherwise. */
  method GetSortedRelevantRegistryItems(reflist: seq<RegistryItem>, relevantIds: seq<string>, sorted: bool)
    returns (res: seq<Option<RegistryItem>>)
    ensures sorted ==> res == Wrap(InRegistryOrder(reflist, relevantIds))
    ensures !sorted ==> res == InIdOrder(reflist, relevantIds)
  {
    res := [];
    if sorted {
      for n := 0 to |reflist|
        invariant res + Wrap(InRegistryOrder(reflist[n..], relevantIds)) == Wrap(InRegistryOrder(reflist, relevantIds))
      {
        var tail := InRegistryOrder(reflist[n + 1..], relevantIds);
        RegistryStep(reflist, relevantIds, n);
        if reflist[n].id in relevantIds {
          WrapCons(res, reflist[n], tail);
          res := res + [Some(reflist[n])];
        }
      }
    } else {
      for n := 0 to |relevantIds|
        invariant res == InIdOrder(reflist, relevantIds)[..n]
      {
        IdOrderStep(reflist, relevantIds, n);
        res := res + [FindById(reflist, relevantIds[n])];
      }
    }
  }

  /** The entries from position `n` on: entry `n` if relevant, then the rest. */
  lemma RegistryStep(reflist: seq<RegistryItem>, relevantIds: seq<string>, n: nat)
    requires n < |reflist|
    ensures InRegistryOrder(reflist[n..], relevantIds) ==
      (if reflist[n].id in relevantIds then [reflist[n]] else []) + InRegistryOrder(reflist[n + 1..], relevantIds)
  {
    assert reflist[n..][1..] == reflist[n + 1..];
  }

  lemma IdOrderStep(reflist: seq<RegistryItem>, relevantIds: seq<string>, n: nat)
    requires n < |relevantIds|
    ensures InIdOrder(reflist, relevantIds)[..n + 1] ==
      InIdOrder(reflist, relevantIds)[..n] + [FindById(reflist, relevantIds[n])]
  {
    var all := InIdOrder(reflist, relevantIds);
    assert all[..n + 1] == all[..n] + [all[n]];
  }

  /** Every entry lifted to `Some`. */
  function Wrap(xs: seq<RegistryItem>): (r: seq<Option<RegistryItem>>)
    ensures |r| == |xs|
    ensures forall k :: 0 <= k < |xs| ==> r[k] == Some(xs[k])
  {
    if xs == [] then [] else [Some(xs[0])] + Wrap(xs[1..])
  }

  /** Taking the first wrapped entry into the prefix. */
  lemma WrapCons(res: seq<Option<RegistryItem>>, x: RegistryItem, tail: seq<RegistryItem>)
    ensures res + Wrap([x] + tail) == res + [Some(x)] + Wrap(tail)
  {
    WrapAppend([x], tail);
  }

  lemma WrapAppend(a: seq<RegistryItem>, b: seq<RegistryItem>)
    ensures Wrap(a + b) == Wrap(a) + Wrap(b)
  {
    assert Wrap(a + b) == Wrap(a) + Wrap(b) by {
      assert |Wrap(a + b)| == |a| + |b|;
      forall k | 0 <= k < |a| + |b|
        ensures Wrap(a + b)[k] == (Wrap(a) + Wrap(b))[k]
      {
        if k < |a| { assert (a + b)[k] == a[k]; } else { assert (a + b)[k] == b[k - |a|]; }
      }
    }
  }

  /** `xs` is obtained from `ys` by deleting elements. */
  predicate Subsequence<T(==)>(xs: seq<T>, ys: seq<T>)
    decreases |ys|
  {
    if xs == [] then true
    else if ys == [] then false
    else if xs[0] == ys[0] then Subsequence(xs[1..], ys[1..])
    else Subsequence(xs, ys[1..])
  }

  /** Sorted mode keeps registry order: the result is a subsequence of the
      registry, and it holds exactly the registry entries with a relevant id. */
  lemma {:induction false} RegistryOrderIsSubsequence(reflist: seq<RegistryItem>, relevantIds: seq<string>)
    ensures Subsequence(InRegistryOrder(reflist, relevantIds), reflist)
    ensures forall x :: x in InRegistryOrder(reflist, relevantIds) <==> x in reflist && x.id in relevantIds
  {
    if reflist != [] {
      RegistryOrderIsSubsequence(reflist[1..], relevantIds);
      var rest := InRegistryOrder(reflist[1..], relevantIds);
      if reflist[0].id !in relevantIds {
        SubsequenceDrop(rest, reflist[1..], reflist[0]);
      } else {
        assert ([reflist[0]] + rest)[1..] == rest;
      }
      assert reflist == [reflist[0]] + reflist[1..];
    }
  }

  lemma {:induction false} SubsequenceDrop<T>(xs: seq<T>, ys: seq<T>, y: T)
    requires Subsequence(xs, ys)
    ensures Subsequence(xs, [y] + ys)
    decreases |ys|, 1
  {
    assert ([y] + ys)[1..] == ys;
    if xs != [] && xs[0] == y {
      SubsequenceTail(xs, ys);
    }
  }

  lemma {:induction false} SubsequenceTail<T>(xs: seq<T>, ys: seq<T>)
    requires xs != [] && Subsequence(xs, ys)
    ensures Subsequence(xs[1..], ys)
    decreases |ys|, 0
  {
    assert ys != [];
    assert [ys[0]] + ys[1..] == ys;
    if xs[0] != ys[0] {
      SubsequenceTail(xs, ys[1..]);
    }
    SubsequenceDrop(xs[1..], ys[1..], ys[0]);
  }

  /** Unsorted mode misses an id only when no registry entry has it. */
  lemma IdOrderMissing(reflist: seq<RegistryItem>, relevantIds: seq<string>, k: nat)
    requires k < |relevantIds|
    ensures InIdOrder(reflist, relevantIds)[k].None? <==> forall x :: x in reflist ==> x.id != relevantIds[k]
  {
  }

  // ---------------------------------------------------------------------
  // split

  /** `[str.slice(0, index), str.slice(index)]`. */
  function SplitAt(str: string, index: int): (r: (string, string))
  {
    (Slice(str, 0, index), SliceFrom(str, index))
  }

  /** The two parts always put back together to the string; for an index in
      range the first part has exactly that length. */
  lemma SplitAtJoins(str: string, index: int)
    ensures SplitAt(str, index).0 + SplitAt(str, index).1 == str
    ensures 0 <= index <= |str| ==> |SplitAt(str, index).0| == index
  {
    var c := ClampIndex(index, |str|);
    assert SplitAt(str, index).1 == str[c..];
    if 0 < c {
      assert SplitAt(str, index).0 == str[..c];
    } else {
      assert SplitAt(str, index).0 == [];
    }
    assert str[..c] + str[c..] == str;
  }

  // ---------------------------------------------------------------------
  // isSameAuthor

  /** Equal numbers of authors with equal family names, position by position. */
  predicate SameAuthors(a: seq<Option<string>>, b: seq<Option<string>>) {
    |a| == |b| && forall i :: 0 <= i < |a| ==> a[i] == b[i]
  }

  /** Compares the author lists of two registry entries by family name; an
      entry without an author list makes the comparison throw. */
  method IsSameAuthor(item: RegistryItem, item2: RegistryItem) returns (r: Result<bool, string>)
    ensures r.Err? <==> item.authors.None? || item2.authors.None?
    ensures r.Err? ==> r.error == NoAuthorList
    ensures r.Ok? ==> (r.value <==> SameAuthors(item.authors.value, item2.authors.value))
  {
    if item.authors.None? || item2.authors.None? {
      return Err(NoAuthorList);
    }
    var authorList := item.authors.value;
    var authorList2 := item2.authors.value;
    if |authorList| != |authorList2| {
      return Ok(false);
    }
    for i := 0 to |authorList|
      invariant forall j :: 0 <= j < i ==> authorList[j] == authorList2[j]
    {
      if authorList[i] != authorList2[i] {
        return Ok(false);
      }
    }
    return Ok(true);
  }

  lemma SameAuthorsReflexive(a: seq<Option<string>>)
    ensures SameAuthors(a, a)
  {
  }

  lemma SameAuthorsSymmetric(a: seq<Option<string>>, b: seq<Option<string>>)
    ensures SameAuthors(a, b) <==> SameAuthors(b, a)
  {
  }

  lemma SameAuthorsTransitive(a: seq<Option<string>>, b: seq<Option<string>>, c: seq<Option<string>>)
    requires SameAuthors(a, b) && SameAuthors(b, c)
    ensures SameAuthors(a, c)
  {
  }

  /** Family names decide: the predicate is exact equality of the lists. */
  lemma SameAuthorsIsEquality(a: seq<Option<string>>, b: seq<Option<string>>)
    ensures SameAuthors(a, b) <==> a == b
  {
  }
}
