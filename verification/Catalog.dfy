/**
 The order of a catalog kind's options: each holds a position, a list sorts by position and then by
 label, a new option is put past the last and a reorder writes every position anew.

 An option goes by its key. Where positions are equal the database may list equal labels either
 way, so a listing is any sequence the sort allows.
 */
module Catalog {
  import opened Texts

  type Key = string

  datatype Term = Term(title: string, order: int)

  type Terms = map<Key, Term>

  predicate Before(a: Term, b: Term) {
    a.order < b.order || (a.order == b.order && AtMost(a.title, b.title))
  }

  predicate Distinct(keys: seq<Key>) {
    forall i, j :: 0 <= i < j < |keys| ==> keys[i] != keys[j]
  }

  /** A result of the query for a kind's options in order. */
  ghost predicate IsListing(terms: Terms, docs: seq<Key>) {
    && Distinct(docs)
    && (forall k :: k in docs <==> k in terms)
    && (forall i, j :: 0 <= i < j < |docs| ==> Before(terms[docs[i]], terms[docs[j]]))
  }

  // ---------------------------------------------------------------------------
  // Operations
  // ---------------------------------------------------------------------------

  ghost predicate IsTop(terms: Terms, k: Key) {
    k in terms && forall x :: x in terms ==> terms[x].order <= terms[k].order
  }

  lemma {:induction false} OneIsTop(terms: Terms)
    requires terms != map[]
    ensures exists k :: IsTop(terms, k)
    decreases |terms|
  {
    var some :| some in terms;
    var others := terms - {some};
    if others == map[] {
      assert forall x :: x in terms ==> x in others || x == some;
      assert IsTop(terms, some);
    } else {
      OneIsTop(others);
      var top :| IsTop(others, top);
      assert forall x :: x in terms ==> x in others || x == some;
      assert IsTop(terms, if terms[top].order < terms[some].order then some else top);
    }
  }

  /** Ten past the last position, or 0 for the first option. */
  ghost predicate IsNext(terms: Terms, order: int) {
    if terms == map[] then order == 0 else exists k :: IsTop(terms, k) && order == terms[k].order + 10
  }

  function Without(docs: seq<Key>, order: seq<Key>): seq<Key> {
    if docs == [] then []
    else Without(docs[..|docs| - 1], order) + if docs[|docs| - 1] in order then [] else [docs[|docs| - 1]]
  }

  /** The keys named, then the others as they were. */
  function Ordered(docs: seq<Key>, order: seq<Key>): seq<Key> {
    order + Without(docs, order)
  }

  predicate CanReorder(terms: Terms, order: seq<Key>) {
    (forall k :: k in order ==> k in terms) && Distinct(order)
  }

  /** The first `n` of some keys put at positions 0, 10, 20, … */
  function Placed(terms: Terms, keys: seq<Key>, n: nat): (placed: Terms)
    requires n <= |keys| && forall k :: k in keys ==> k in terms
    ensures placed.Keys == terms.Keys
    decreases n
  {
    if n == 0 then terms
    else
      var before := Placed(terms, keys, n - 1);
      before[keys[n - 1] := before[keys[n - 1]].(order := (n - 1) * 10)]
  }

  /** Every one of some keys at its place. */
  function Moved(terms: Terms, keys: seq<Key>): Terms
    requires forall k :: k in keys ==> k in terms
  {
    Placed(terms, keys, |keys|)
  }

  class CatalogService {
    var terms: Terms

    constructor ()
      ensures terms == map[]
    {
      terms := map[];
    }

    method CreateTerm(key: Key, title: string) returns (created: bool)
      modifies this
      ensures created <==> key !in old(terms)
      ensures Next(old(terms), Step.Create(key, title), terms)
    {
      if key in terms {
        return false;
      }
      var order := 0;
      if terms != map[] {
        OneIsTop(terms);
        var last :| last in terms && forall x :: x in terms ==> terms[x].order <= terms[last].order;
        assert IsTop(terms, last);
        order := terms[last].order + 10;
      }
      terms := terms[key := Term(title, order)];
      created := true;
    }

    method Rename(key: Key, title: string) returns (found: bool)
      modifies this
      ensures found <==> key in old(terms)
      ensures Next(old(terms), Step.Rename(key, title), terms)
    {
      if key !in terms {
        return false;
      }
      terms := terms[key := terms[key].(title := title)];
      found := true;
    }

    /** Puts the keys named first, in that order; `docs` is the query's result. */
    method Reorder(docs: seq<Key>, order: seq<Key>) returns (ok: bool)
      requires IsListing(terms, docs)
      modifies this
      ensures ok <==> CanReorder(old(terms), order)
      ensures Next(old(terms), Step.Reorder(docs, order), terms)
    {
      if (exists k :: k in order && k !in terms) || !Distinct(order) {
        return false;
      }
      var rest := Rest(docs, order);
      WithoutIs(docs, order);
      WritePositions(order + rest);
      ok := true;
    }

    /** The bulk write of a reorder. */
    method WritePositions(ordered: seq<Key>)
      requires forall k :: k in ordered ==> k in terms
      modifies this
      ensures terms == Moved(old(terms), ordered)
    {
      for i := 0 to |ordered|
        invariant terms == Placed(old(terms), ordered, i)
      {
        assert ordered[i] in ordered;
        terms := terms[ordered[i] := terms[ordered[i]].(order := i * 10)];
      }
    }
  }

  /** The options a reorder does not name, in the order they were listed. */
  method Rest(docs: seq<Key>, order: seq<Key>) returns (rest: seq<Key>)
    ensures rest == Without(docs, order)
  {
    rest := [];
    for i := 0 to |docs|
      invariant rest == Without(docs[..i], order)
    {
      assert docs[..i + 1][..i] == docs[..i];
      if docs[i] !in order {
        rest := rest + [docs[i]];
      }
    }
    assert docs[..|docs|] == docs;
  }

  lemma {:induction false} WithoutIs(docs: seq<Key>, order: seq<Key>)
    ensures forall k :: k in Without(docs, order) <==> k in docs && k !in order
    ensures Distinct(docs) ==> Distinct(Without(docs, order))
  {
    if docs != [] {
      var init, last := docs[..|docs| - 1], docs[|docs| - 1];
      assert docs == init + [last];
      WithoutIs(init, order);
      assert Distinct(docs) ==> last !in init;
    }
  }

  // ---------------------------------------------------------------------------
  // A list kept by positions
  // ---------------------------------------------------------------------------

  /** No two options share a position, so there is one listing. */
  ghost predicate OwnPlaces(terms: Terms) {
    forall k, x :: k in terms && x in terms && terms[k].order == terms[x].order ==> k == x
  }

  /** No two share a position and a label too. */
  ghost predicate ToldApart(terms: Terms) {
    forall k, x :: k in terms && x in terms && terms[k] == terms[x] ==> k == x
  }

  datatype Step =
    | Create(key: Key, title: string)
    | Rename(key: Key, title: string)
    | Reorder(docs: seq<Key>, order: seq<Key>)

  /** What a step may make of the options. */
  ghost predicate Next(terms: Terms, step: Step, terms': Terms) {
    match step
    case Create(key, title) =>
      if key in terms then terms' == terms
      else exists order :: IsNext(terms, order) && terms' == terms[key := Term(title, order)]
    case Rename(key, title) =>
      terms' == if key in terms then terms[key := Term(title, terms[key].order)] else terms
    case Reorder(docs, order) =>
      && IsListing(terms, docs)
      && if CanReorder(terms, order) then
           (forall k :: k in Ordered(docs, order) ==> k in terms)
           && terms' == Moved(terms, Ordered(docs, order))
         else terms' == terms
  }

  /** The same step on a plain list, without positions or labels. */
  ghost function OnList(list: seq<Key>, step: Step): seq<Key> {
    match step
    case Create(key, _) => if key in list then list else list + [key]
    case Rename(_, _) => list
    case Reorder(_, order) =>
      if (forall k :: k in order ==> k in list) && Distinct(order) then Ordered(list, order) else list
  }

  lemma {:induction false} PlacedIs(terms: Terms, keys: seq<Key>, n: nat)
    requires n <= |keys| && Distinct(keys) && forall k :: k in keys ==> k in terms
    ensures forall i :: 0 <= i < n ==> Placed(terms, keys, n)[keys[i]] == Term(terms[keys[i]].title, i * 10)
    ensures forall k :: k in terms && k !in keys[..n] ==> Placed(terms, keys, n)[k] == terms[k]
    decreases n
  {
    if n > 0 {
      PlacedIs(terms, keys, n - 1);
      assert keys[n - 1] !in keys[..n - 1];
      assert keys[..n] == keys[..n - 1] + [keys[n - 1]];
    }
  }

  lemma DistinctBoth(a: seq<Key>, b: seq<Key>)
    requires Distinct(a) && Distinct(b) && forall k :: k in b ==> k !in a
    ensures Distinct(a + b)
  {
    forall i, j | 0 <= i < j < |a + b| ensures (a + b)[i] != (a + b)[j] {
      if i < |a| <= j {
        assert (a + b)[j] in b && (a + b)[i] in a;
      }
    }
  }

  lemma OrderedIs(terms: Terms, docs: seq<Key>, order: seq<Key>)
    requires IsListing(terms, docs) && CanReorder(terms, order)
    ensures Distinct(Ordered(docs, order))
    ensures forall k :: k in Ordered(docs, order) <==> k in terms
  {
    WithoutIs(docs, order);
    DistinctBoth(order, Without(docs, order));
  }

  lemma EmptyListing(terms: Terms, docs: seq<Key>)
    requires IsListing(terms, docs)
    ensures docs == [] <==> terms == map[]
  {
    if docs != [] {
      assert docs[0] in docs;
    }
  }

  lemma SameLast(terms: Terms, a: seq<Key>, b: seq<Key>)
    requires ToldApart(terms) && IsListing(terms, a) && IsListing(terms, b) && a != [] && b != []
    ensures a[|a| - 1] == b[|b| - 1]
  {
    var x, y := a[|a| - 1], b[|b| - 1];
    LastComesLast(terms, a, y);
    LastComesLast(terms, b, x);
    AtMostIsTotal(terms[x].title, terms[y].title);
  }

  lemma LastComesLast(terms: Terms, docs: seq<Key>, k: Key)
    requires IsListing(terms, docs) && docs != [] && k in terms
    ensures docs[|docs| - 1] in terms && (k == docs[|docs| - 1] || Before(terms[k], terms[docs[|docs| - 1]]))
  {
    assert k in docs && docs[|docs| - 1] in docs;
  }

  lemma SameFromEnds(a: seq<Key>, b: seq<Key>)
    requires a != [] && b != [] && a[|a| - 1] == b[|b| - 1] && a[..|a| - 1] == b[..|b| - 1]
    ensures a == b
  {
    assert a == a[..|a| - 1] + [a[|a| - 1]] && b == b[..|b| - 1] + [b[|b| - 1]];
  }

  /** Where no two options share both position and label, there is only one listing. */
  lemma {:induction false} ListingIsOne(terms: Terms, a: seq<Key>, b: seq<Key>)
    requires ToldApart(terms) && IsListing(terms, a) && IsListing(terms, b)
    ensures a == b
    decreases |a|
  {
    EmptyListing(terms, a);
    EmptyListing(terms, b);
    if a != [] {
      SameLast(terms, a, b);
      WithoutLast(terms, a);
      WithoutLast(terms, b);
      ListingIsOne(terms - {a[|a| - 1]}, a[..|a| - 1], b[..|b| - 1]);
      SameFromEnds(a, b);
    }
  }

  lemma LastIsTop(terms: Terms, docs: seq<Key>)
    requires IsListing(terms, docs) && docs != []
    ensures IsTop(terms, docs[|docs| - 1])
  {
  }

  lemma WithoutLast(terms: Terms, docs: seq<Key>)
    requires IsListing(terms, docs) && docs != []
    ensures IsListing(terms - {docs[|docs| - 1]}, docs[..|docs| - 1])
    ensures ToldApart(terms) ==> ToldApart(terms - {docs[|docs| - 1]})
  {
  }

  /** Positions in a sequence's own order make it the listing. */
  lemma PlacesList(terms: Terms, all: seq<Key>)
    requires Distinct(all) && forall k :: k in all <==> k in terms
    requires forall i :: 0 <= i < |all| ==> terms[all[i]].order == i * 10
    ensures IsListing(terms, all) && OwnPlaces(terms)
  {
  }

  lemma MovedIs(terms: Terms, all: seq<Key>)
    requires Distinct(all) && forall k :: k in all <==> k in terms
    ensures forall i :: 0 <= i < |all| ==> all[i] in Moved(terms, all) && Moved(terms, all)[all[i]] == Term(terms[all[i]].title, i * 10)
    ensures Moved(terms, all).Keys == terms.Keys
  {
    PlacedIs(terms, all, |all|);
  }

  /** After a reorder the list is the keys named and then the others as they were, and each option has its own place. */
  lemma ReorderLists(terms: Terms, docs: seq<Key>, order: seq<Key>)
    requires IsListing(terms, docs) && CanReorder(terms, order)
    ensures var all := Ordered(docs, order);
            && (forall k :: k in all ==> k in terms)
            && IsListing(Moved(terms, all), all) && OwnPlaces(Moved(terms, all))
            && multiset(all) == multiset(docs)
  {
    var all := Ordered(docs, order);
    OrderedIs(terms, docs, order);
    MovedIs(terms, all);
    PlacesList(Moved(terms, all), all);
    SameElements(all, docs);
  }

  lemma SameElements(a: seq<Key>, b: seq<Key>)
    requires Distinct(a) && Distinct(b) && forall k :: k in a <==> k in b
    ensures multiset(a) == multiset(b)
  {
    forall k ensures multiset(a)[k] == multiset(b)[k] {
      OnceEach(a, k);
      OnceEach(b, k);
    }
  }

  lemma {:induction false} OnceEach(keys: seq<Key>, k: Key)
    requires Distinct(keys)
    ensures multiset(keys)[k] == if k in keys then 1 else 0
  {
    if keys != [] {
      var init, last := keys[..|keys| - 1], keys[|keys| - 1];
      assert keys == init + [last];
      OnceEach(init, k);
      assert last !in init;
    }
  }

  /** A new option goes past every other, so every list of them ends with it. */
  lemma CreatedIsLast(terms: Terms, key: Key, title: string, order: int, docs: seq<Key>)
    requires key !in terms && IsNext(terms, order) && IsListing(terms, docs)
    ensures IsListing(terms[key := Term(title, order)], docs + [key])
    ensures OwnPlaces(terms) ==> OwnPlaces(terms[key := Term(title, order)])
    ensures forall list :: IsListing(terms[key := Term(title, order)], list) ==> list != [] && list[|list| - 1] == key
  {
    var terms' := terms[key := Term(title, order)];
    assert forall k :: k in terms ==> terms[k].order < order;
    var list := docs + [key];
    forall i, j | 0 <= i < j < |list| ensures Before(terms'[list[i]], terms'[list[j]]) && list[i] != list[j] {
      assert list[i] in docs;
      if j < |docs| {
        assert Before(terms[docs[i]], terms[docs[j]]) && docs[j] in docs;
      }
    }
    forall other | IsListing(terms', other) ensures other != [] && other[|other| - 1] == key {
      assert key in other;
      LastIsTop(terms', other);
      assert other[|other| - 1] in other;
    }
  }

  /** Where the positions are those a reorder writes, or there are no options yet, a new one gets the next of them. */
  lemma CreatedAtItsPlace(terms: Terms, docs: seq<Key>, order: int)
    requires IsListing(terms, docs) && (forall i :: 0 <= i < |docs| ==> docs[i] in terms && terms[docs[i]].order == i * 10)
    ensures IsNext(terms, order) <==> order == |docs| * 10
  {
    EmptyListing(terms, docs);
    if docs != [] {
      LastIsTop(terms, docs);
      assert forall k :: IsTop(terms, k) ==> terms[k].order == terms[docs[|docs| - 1]].order;
    }
  }

  /** A new label moves nothing once each option has its own place. */
  lemma RenamedStays(terms: Terms, key: Key, title: string, docs: seq<Key>)
    requires key in terms && OwnPlaces(terms) && IsListing(terms, docs)
    ensures IsListing(terms[key := Term(title, terms[key].order)], docs)
    ensures OwnPlaces(terms[key := Term(title, terms[key].order)])
  {
  }

  /** Each step on the stored options is the plain list's step on their listing. */
  lemma StepIsListStep(terms: Terms, step: Step, terms': Terms, list: seq<Key>)
    requires OwnPlaces(terms) && IsListing(terms, list) && Next(terms, step, terms')
    ensures OwnPlaces(terms') && IsListing(terms', OnList(list, step))
  {
    match step
    case Create(key, title) =>
      if key !in terms {
        var order :| IsNext(terms, order) && terms' == terms[key := Term(title, order)];
        CreatedIsLast(terms, key, title, order, list);
      }
    case Rename(key, title) =>
      if key in terms {
        RenamedStays(terms, key, title, list);
      }
    case Reorder(docs, order) =>
      ListingIsOne(terms, docs, list);
      if CanReorder(terms, order) {
        ReorderLists(terms, docs, order);
      }
  }

  ghost predicate IsRun(states: seq<Terms>, steps: seq<Step>) {
    |states| == |steps| + 1 && forall i :: 0 <= i < |steps| ==> Next(states[i], steps[i], states[i + 1])
  }

  ghost function OnListAll(list: seq<Key>, steps: seq<Step>): seq<Key> {
    if steps == [] then list else OnList(OnListAll(list, steps[..|steps| - 1]), steps[|steps| - 1])
  }

  /** Over any run, the options listed by position and label are the plain list the same steps make. */
  lemma {:induction false} RunIsListRun(states: seq<Terms>, steps: seq<Step>, list: seq<Key>)
    requires IsRun(states, steps) && OwnPlaces(states[0]) && IsListing(states[0], list)
    ensures OwnPlaces(states[|steps|]) && IsListing(states[|steps|], OnListAll(list, steps))
    ensures forall docs :: IsListing(states[|steps|], docs) ==> docs == OnListAll(list, steps)
  {
    if steps != [] {
      var n := |steps| - 1;
      RunIsListRun(states[..n + 1], steps[..n], list);
      StepIsListStep(states[n], steps[n], states[n + 1], OnListAll(list, steps[..n]));
    }
    forall docs | IsListing(states[|steps|], docs) ensures docs == OnListAll(list, steps) {
      ListingIsOne(states[|steps|], docs, OnListAll(list, steps));
    }
  }

  function TitlesOf(terms: Terms): map<Key, string> {
    map k | k in terms :: terms[k].title
  }

  /** What a step does to the labels: a reorder nothing at all. */
  function OnTitles(titles: map<Key, string>, step: Step): map<Key, string> {
    match step
    case Create(key, title) => if key in titles then titles else titles[key := title]
    case Rename(key, title) => if key in titles then titles[key := title] else titles
    case Reorder(_, _) => titles
  }

  function OnTitlesAll(titles: map<Key, string>, steps: seq<Step>): map<Key, string> {
    if steps == [] then titles else OnTitles(OnTitlesAll(titles, steps[..|steps| - 1]), steps[|steps| - 1])
  }

  lemma {:induction false} PlacedKeepsTitles(terms: Terms, keys: seq<Key>, n: nat)
    requires n <= |keys| && forall k :: k in keys ==> k in terms
    ensures TitlesOf(Placed(terms, keys, n)) == TitlesOf(terms)
    decreases n
  {
    if n > 0 {
      PlacedKeepsTitles(terms, keys, n - 1);
    }
  }

  /** Over any run each option has the label last given it: no reorder mixes labels up, drops an option or adds one. */
  lemma {:induction false} TitlesFollow(states: seq<Terms>, steps: seq<Step>)
    requires IsRun(states, steps)
    ensures TitlesOf(states[|steps|]) == OnTitlesAll(TitlesOf(states[0]), steps)
  {
    if steps != [] {
      var n := |steps| - 1;
      TitlesFollow(states[..n + 1], steps[..n]);
      assert Next(states[n], steps[n], states[n + 1]);
      match steps[n]
      case Reorder(docs, order) =>
        if CanReorder(states[n], order) {
          PlacedKeepsTitles(states[n], Ordered(docs, order), |Ordered(docs, order)|);
        }
      case _ =>
    }
  }

  /** Whatever positions there were at first, from any reorder on the listing is the plain list that the steps make of its result. */
  lemma RunFromReorder(states: seq<Terms>, steps: seq<Step>, k: nat)
    requires IsRun(states, steps) && k < |steps|
    requires steps[k].Reorder? && CanReorder(states[k], steps[k].order)
    ensures var list := OnListAll(Ordered(steps[k].docs, steps[k].order), steps[k + 1..]);
            && IsListing(states[|steps|], list)
            && forall docs :: IsListing(states[|steps|], docs) ==> docs == list
  {
    assert Next(states[k], steps[k], states[k + 1]);
    ReorderLists(states[k], steps[k].docs, steps[k].order);
    var later := states[k + 1..];
    assert later[|steps[k + 1..]|] == states[|steps|];
    RunIsListRun(later, steps[k + 1..], Ordered(steps[k].docs, steps[k].order));
  }

  /** And until then, options created are listed last, in the order they were made. */
  lemma {:induction false} RunOfCreations(states: seq<Terms>, steps: seq<Step>, list: seq<Key>)
    requires IsRun(states, steps) && IsListing(states[0], list)
    requires forall i :: 0 <= i < |steps| ==> steps[i].Create?
    ensures IsListing(states[|steps|], OnListAll(list, steps))
  {
    if steps != [] {
      var n := |steps| - 1;
      RunOfCreations(states[..n + 1], steps[..n], list);
      var before, step := OnListAll(list, steps[..n]), steps[n];
      assert Next(states[n], step, states[n + 1]);
      if step.key !in states[n] {
        var order :| IsNext(states[n], order) && states[n + 1] == states[n][step.key := Term(step.title, order)];
        CreatedIsLast(states[n], step.key, step.title, order, before);
      }
    }
  }

  /** The same reorder again writes the positions there already are. */
  lemma ReorderTwice(terms: Terms, docs: seq<Key>, order: seq<Key>, again: seq<Key>)
    requires IsListing(terms, docs) && CanReorder(terms, order)
    requires (forall k :: k in Ordered(docs, order) ==> k in terms) && IsListing(Moved(terms, Ordered(docs, order)), again)
    ensures var once := Moved(terms, Ordered(docs, order)); Next(once, Reorder(again, order), once)
  {
    var all := Ordered(docs, order);
    var once := Moved(terms, all);
    ReorderLists(terms, docs, order);
    ListingIsOne(once, again, all);
    OrderedTwice(docs, order);
    OrderedIs(terms, docs, order);
    MovedIs(terms, all);
    MovedTwice(terms, all);
  }

  lemma MovedTwice(terms: Terms, all: seq<Key>)
    requires Distinct(all) && forall k :: k in all <==> k in terms
    ensures (forall k :: k in all ==> k in Moved(terms, all)) && Moved(Moved(terms, all), all) == Moved(terms, all)
  {
    var once := Moved(terms, all);
    MovedIs(terms, all);
    MovedIs(once, all);
    forall k | k in once ensures Moved(once, all)[k] == once[k] {
      assert k in all;
      var i :| 0 <= i < |all| && all[i] == k;
    }
  }

  lemma OrderedTwice(docs: seq<Key>, order: seq<Key>)
    ensures Ordered(Ordered(docs, order), order) == Ordered(docs, order)
  {
    var rest := Without(docs, order);
    WithoutIs(docs, order);
    WithoutBoth(order, rest, order);
    WithoutAll(order, order);
    WithoutNone(rest, order);
    assert [] + rest == rest;
  }

  lemma {:induction false} WithoutBoth(a: seq<Key>, b: seq<Key>, order: seq<Key>)
    ensures Without(a + b, order) == Without(a, order) + Without(b, order)
  {
    if b == [] {
      assert a + b == a;
    } else {
      assert (a + b)[..|a + b| - 1] == a + b[..|b| - 1];
      WithoutBoth(a, b[..|b| - 1], order);
    }
  }

  lemma {:induction false} WithoutAll(a: seq<Key>, order: seq<Key>)
    requires forall k :: k in a ==> k in order
    ensures Without(a, order) == []
  {
    if a != [] {
      assert a[|a| - 1] in a;
      WithoutAll(a[..|a| - 1], order);
    }
  }

  lemma {:induction false} WithoutNone(a: seq<Key>, order: seq<Key>)
    requires forall k :: k in a ==> k !in order
    ensures Without(a, order) == a
  {
    if a != [] {
      assert a[|a| - 1] in a;
      WithoutNone(a[..|a| - 1], order);
    }
  }
}
