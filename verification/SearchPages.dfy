/**
 The pages of a search: the selection in the order of names and ids, cut up by LIMIT and
 OFFSET.
 */
module SearchPages {
  import opened SearchSql
  import opened SearchCompiler
  import opened SearchTheory
  import R = RegisterModel

  function PageNumber(page: int): nat {
    if page < 1 then 1 else page
  }

  function PageSize(size: int): nat {
    if size < 1 || size > 100 then 25 else size
  }

  // ORDER BY p.name, p.id, names compared by the server's collation.
  predicate Before(t: Tables, collate: (string, string) -> bool, p: R.PropertyId, q: R.PropertyId)
    requires p in t.rows && q in t.rows
  {
    var a, b := t.rows[p].name, t.rows[q].name;
    collate(a, b) && (collate(b, a) ==> p < q)
  }

  // A collation puts any two names in some order, consistently.
  ghost predicate Collation(collate: (string, string) -> bool) {
    && (forall a, b :: collate(a, b) || collate(b, a))
    && (forall a, b, c :: collate(a, b) && collate(b, c) ==> collate(a, c))
  }

  // The rows a statement returns without LIMIT: the selected properties, each once, in order.
  ghost predicate IsListing(t: Tables, s: Sql, collate: (string, string) -> bool, listing: seq<R.PropertyId>) {
    && (forall p :: p in listing <==> SelectedBy(t, s, p))
    && Ordered(t, collate, listing)
  }

  ghost predicate Ordered(t: Tables, collate: (string, string) -> bool, listing: seq<R.PropertyId>) {
    && (forall i :: 0 <= i < |listing| ==> listing[i] in t.rows)
    && (forall i, j :: 0 <= i < j < |listing| ==> Before(t, collate, listing[i], listing[j]))
  }

  lemma OrderedIsDistinct(t: Tables, collate: (string, string) -> bool, listing: seq<R.PropertyId>, i: nat, j: nat)
    requires Ordered(t, collate, listing) && i < j < |listing|
    ensures listing[i] != listing[j]
  {
    assert Before(t, collate, listing[i], listing[j]);
  }

  lemma SameFirst(a: seq<R.PropertyId>, b: seq<R.PropertyId>)
    requires forall p :: p in a <==> p in b
    ensures a == [] <==> b == []
    ensures a != [] ==> a[0] in b && b[0] in a
  {
    assert a != [] ==> a[0] in a;
    assert b != [] ==> b[0] in b;
  }

  // The order leaves nothing open, so every page is cut from the same listing.
  lemma {:induction false} OrderedIsUnique(t: Tables, collate: (string, string) -> bool, a: seq<R.PropertyId>,
      b: seq<R.PropertyId>)
    requires Ordered(t, collate, a) && Ordered(t, collate, b) && forall p :: p in a <==> p in b
    ensures a == b
    decreases |a|
  {
    SameFirst(a, b);
    if a != [] {
      FirstIsFirst(t, collate, a, b);
      var x, y := a[1..], b[1..];
      forall p ensures p in x <==> p in y {
        RestHas(t, collate, a, p);
        RestHas(t, collate, b, p);
      }
      OrderedIsUnique(t, collate, x, y);
      assert a == [a[0]] + x && b == [b[0]] + y;
    }
  }

  lemma RestHas(t: Tables, collate: (string, string) -> bool, a: seq<R.PropertyId>, p: R.PropertyId)
    requires Ordered(t, collate, a) && a != []
    ensures p in a[1..] <==> p in a && p != a[0]
  {
    if p in a[1..] {
      var i :| 0 <= i < |a| - 1 && a[1..][i] == p;
      OrderedIsDistinct(t, collate, a, 0, i + 1);
    }
    if p in a && p != a[0] {
      var i :| 0 <= i < |a| && a[i] == p;
      assert a[1..][i - 1] == p;
    }
  }

  lemma FirstIsFirst(t: Tables, collate: (string, string) -> bool, a: seq<R.PropertyId>, b: seq<R.PropertyId>)
    requires Ordered(t, collate, a) && Ordered(t, collate, b) && a != [] && b != [] && a[0] in b && b[0] in a
    ensures a[0] == b[0]
  {
    var i :| 0 <= i < |b| && b[i] == a[0];
    var j :| 0 <= j < |a| && a[j] == b[0];
    NotBoth(t, collate, a[0], b[0]);
  }

  lemma NotBoth(t: Tables, collate: (string, string) -> bool, p: R.PropertyId, q: R.PropertyId)
    requires p in t.rows && q in t.rows
    ensures !(Before(t, collate, p, q) && Before(t, collate, q, p))
  {
  }

  // Names come first; of two that the collation does not tell apart, the lower id.
  lemma NamesThenIds(t: Tables, collate: (string, string) -> bool, p: R.PropertyId, q: R.PropertyId)
    requires p in t.rows && q in t.rows && collate(t.rows[p].name, t.rows[q].name)
    ensures !collate(t.rows[q].name, t.rows[p].name) ==> Before(t, collate, p, q) && !Before(t, collate, q, p)
    ensures collate(t.rows[q].name, t.rows[p].name) ==> (Before(t, collate, p, q) <==> p < q)
  {
  }

  lemma OneOrOther(t: Tables, collate: (string, string) -> bool, p: R.PropertyId, q: R.PropertyId)
    requires Collation(collate) && p in t.rows && q in t.rows && p != q
    ensures Before(t, collate, p, q) || Before(t, collate, q, p)
  {
    assert collate(t.rows[p].name, t.rows[q].name) || collate(t.rows[q].name, t.rows[p].name);
  }

  lemma BeforeFollows(t: Tables, collate: (string, string) -> bool, p: R.PropertyId, q: R.PropertyId, r: R.PropertyId)
    requires Collation(collate) && p in t.rows && q in t.rows && r in t.rows
    requires Before(t, collate, p, q) && Before(t, collate, q, r)
    ensures Before(t, collate, p, r)
  {
    var a, b, c := t.rows[p].name, t.rows[q].name, t.rows[r].name;
    assert collate(a, b) && collate(b, c) ==> collate(a, c);
    assert collate(c, a) && collate(a, b) ==> collate(c, b);
    assert collate(b, c) && collate(c, a) ==> collate(b, a);
  }

  // Inserting one more property in its place.
  lemma {:induction false} Inserted(t: Tables, collate: (string, string) -> bool, a: seq<R.PropertyId>, p: R.PropertyId)
    returns (b: seq<R.PropertyId>)
    requires Collation(collate) && Ordered(t, collate, a) && p in t.rows && p !in a
    ensures Ordered(t, collate, b) && forall q :: q in b <==> q in a || q == p
    decreases |a|
  {
    if a == [] {
      b := [p];
    } else {
      var first, rest := a[0], a[1..];
      OneOrOther(t, collate, p, first);
      if Before(t, collate, p, first) {
        b := [p] + a;
        forall i | 0 < i < |b| ensures Before(t, collate, p, b[i]) {
          if i > 1 {
            BeforeFollows(t, collate, p, first, a[i - 1]);
          }
        }
      } else {
        var tail := Inserted(t, collate, rest, p);
        b := [first] + tail;
        forall i | 0 < i < |b| ensures Before(t, collate, first, b[i]) {
          assert tail[i - 1] in tail;
          if tail[i - 1] != p {
            var j :| 0 <= j < |rest| && rest[j] == tail[i - 1];
            assert Before(t, collate, a[0], a[j + 1]);
          }
        }
        assert forall q :: q in a <==> q == first || q in rest;
      }
    }
  }

  lemma {:induction false} SetIsListed(t: Tables, collate: (string, string) -> bool, ps: set<R.PropertyId>)
    returns (listing: seq<R.PropertyId>)
    requires Collation(collate) && ps <= t.rows.Keys
    ensures Ordered(t, collate, listing) && forall p :: p in listing <==> p in ps
    decreases |ps|
  {
    if ps == {} {
      listing := [];
    } else {
      var p :| p in ps;
      var rest := SetIsListed(t, collate, ps - {p});
      listing := Inserted(t, collate, rest, p);
    }
  }

  // Under any collation every statement has a listing.
  lemma AListingExists(t: Tables, s: Sql, collate: (string, string) -> bool) returns (listing: seq<R.PropertyId>)
    requires Collation(collate)
    ensures IsListing(t, s, collate, listing)
  {
    listing := SetIsListed(t, collate, set p | p in t.rows && SelectedBy(t, s, p));
  }

  // LIMIT and OFFSET over an ordered selection.
  function Window(listing: seq<R.PropertyId>, from: nat, size: nat): seq<R.PropertyId> {
    if from >= |listing| then []
    else if |listing| - from <= size then listing[from..]
    else listing[from..from + size]
  }

  function PageOf(listing: seq<R.PropertyId>, page: int, size: int): seq<R.PropertyId> {
    Window(listing, (PageNumber(page) - 1) * PageSize(size), PageSize(size))
  }

  function Upto(listing: seq<R.PropertyId>, n: nat): seq<R.PropertyId> {
    if n >= |listing| then listing else listing[..n]
  }

  lemma WindowContinues(listing: seq<R.PropertyId>, from: nat, size: nat)
    ensures Upto(listing, from) + Window(listing, from, size) == Upto(listing, from + size)
  {
  }

  function FirstPages(listing: seq<R.PropertyId>, n: nat, size: int): seq<R.PropertyId> {
    if n == 0 then [] else FirstPages(listing, n - 1, size) + PageOf(listing, n, size)
  }

  lemma Multiple(n: nat, k: nat)
    requires n > 0
    ensures (n - 1) * k + k == n * k
  {
  }

  lemma PageAppends(listing: seq<R.PropertyId>, n: nat, size: int, from: nat, k: nat)
    requires n > 0 && k == PageSize(size) && from == (n - 1) * k
    requires FirstPages(listing, n - 1, size) == Upto(listing, from)
    ensures FirstPages(listing, n, size) == Upto(listing, from + k)
  {
    assert PageOf(listing, n, size) == Window(listing, from, k);
    WindowContinues(listing, from, k);
  }

  lemma {:induction false} PagesRebuildPart(listing: seq<R.PropertyId>, n: nat, size: int, k: nat, to: nat)
    requires k == PageSize(size) && to == n * k
    ensures FirstPages(listing, n, size) == Upto(listing, to)
  {
    if n > 0 {
      Multiple(n, k);
      PagesRebuildPart(listing, n - 1, size, k, to - k);
      PageAppends(listing, n, size, to - k, k);
    }
  }

  lemma PagesRebuildListing(listing: seq<R.PropertyId>, n: nat, size: int)
    ensures FirstPages(listing, n, size) == Upto(listing, n * PageSize(size))
  {
    PagesRebuildPart(listing, n, size, PageSize(size), n * PageSize(size));
  }

  // However the two queries of two requests list it, turning the pages of a search far
  // enough shows exactly the selected properties, each once, in order.
  lemma PagesShowTheSelection(t: Tables, s: Sql, collate: (string, string) -> bool, one: seq<R.PropertyId>,
      other: seq<R.PropertyId>, n: nat, size: int)
    requires IsListing(t, s, collate, one) && IsListing(t, s, collate, other)
    requires n * PageSize(size) >= |one|
    ensures forall k :: PageOf(one, k, size) == PageOf(other, k, size)
    ensures FirstPages(one, n, size) == one
    ensures forall p :: p in FirstPages(one, n, size) <==> Selected(t, s.query, s.args, p)
    ensures forall i, j :: 0 <= i < j < |FirstPages(one, n, size)| ==>
              FirstPages(one, n, size)[i] != FirstPages(one, n, size)[j]
  {
    OrderedIsUnique(t, collate, one, other);
    PagesRebuildListing(one, n, size);
    forall i, j | 0 <= i < j < |one| ensures one[i] != one[j] {
      OrderedIsDistinct(t, collate, one, i, j);
    }
  }

  // A page asked for by a positive number and a size of 1 to 100 shows that many entries, or
  // as many as are left, from where the pages before it end.
  lemma PageShows(listing: seq<R.PropertyId>, page: int, size: int, from: nat)
    requires page >= 1 && 1 <= size <= 100 && from == (page - 1) * size
    ensures var shown := PageOf(listing, page, size);
            && |shown| == (if from >= |listing| then 0 else if |listing| - from < size then |listing| - from else size)
            && forall k :: 0 <= k < |shown| ==> from + k < |listing| && shown[k] == listing[from + k]
  {
  }

  // Any other size is taken for 25, and any other page for the first.
  lemma OddPagesShow(listing: seq<R.PropertyId>, page: int, size: int)
    ensures !(1 <= size <= 100) ==> PageOf(listing, page, size) == PageOf(listing, page, 25)
    ensures page < 1 ==> PageOf(listing, page, size) == PageOf(listing, 1, size)
  {
  }
}
