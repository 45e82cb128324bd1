/** Snapshot reconciliation as `track_prices` performs it: a first pass over
    the new snapshot, in its order, reports new listings and price changes;
    a second pass over the old snapshot, in its order, reports the listings
    that disappeared. */
module Comparison {
  import opened Wrappers
  import opened Listings

  /** One change, with what its log line shows. */
  datatype Event =
    | NewListing(link: string, name: string, price: nat)
    | Discount(link: string, name: string, oldPrice: nat, newPrice: nat)
    | PriceUp(link: string, name: string, oldPrice: nat, newPrice: nat)
    | Removed(link: string, name: string, price: nat)

  /** The first loop's body for entry `e` of the new snapshot. The name is
      the newly scraped one; an old entry is a non-empty dict, so it is
      truthy whenever it is present. */
  function Compare(e: Entry, olds: Snapshot): seq<Event> {
    match Lookup(olds, e.link)
    case None => [NewListing(e.link, e.rec.name, e.rec.price)]
    case Some(o) =>
      if e.rec.price < o.price then [Discount(e.link, e.rec.name, o.price, e.rec.price)]
      else if e.rec.price > o.price then [PriceUp(e.link, e.rec.name, o.price, e.rec.price)]
      else []
  }

  /** An entry of the new snapshot produces at most one event. */
  lemma CompareAtMostOne(e: Entry, olds: Snapshot)
    ensures |Compare(e, olds)| <= 1
  {
  }

  /** The events of the first loop, over `news` in order. */
  function FirstPass(news: Snapshot, olds: Snapshot): seq<Event> {
    if news == [] then []
    else FirstPass(news[..|news| - 1], olds) + Compare(news[|news| - 1], olds)
  }

  lemma FirstPassSnoc(news: Snapshot, olds: Snapshot, i: nat)
    requires i < |news|
    ensures FirstPass(news[..i + 1], olds) == FirstPass(news[..i], olds) + Compare(news[i], olds)
  {
    assert news[..i + 1][..i] == news[..i];
  }

  /** The second loop's body for entry `e` of the old snapshot. */
  function Gone(e: Entry, news: Snapshot): seq<Event> {
    if HasKey(news, e.link) then [] else [Removed(e.link, e.rec.name, e.rec.price)]
  }

  /** The events of the second loop, over `olds` in order. */
  function SecondPass(olds: Snapshot, news: Snapshot): seq<Event> {
    if olds == [] then []
    else SecondPass(olds[..|olds| - 1], news) + Gone(olds[|olds| - 1], news)
  }

  /** Every event of one run, in the order the log receives them. */
  function Reconcile(olds: Snapshot, news: Snapshot): seq<Event> {
    FirstPass(news, olds) + SecondPass(olds, news)
  }

  /** A run reports something exactly when one of its two passes does. */
  lemma ReconcileNonEmpty(olds: Snapshot, news: Snapshot)
    ensures Reconcile(olds, news) != [] <==> FirstPass(news, olds) != [] || SecondPass(olds, news) != []
  {
    assert |Reconcile(olds, news)| == |FirstPass(news, olds)| + |SecondPass(olds, news)|;
  }

  /** The events about link `k`, in order. */
  function EventsFor(evs: seq<Event>, k: string): seq<Event> {
    if evs == [] then []
    else EventsFor(evs[..|evs| - 1], k) + if evs[|evs| - 1].link == k then [evs[|evs| - 1]] else []
  }

  lemma {:induction false} EventsForAppend(a: seq<Event>, b: seq<Event>, k: string)
    ensures EventsFor(a + b, k) == EventsFor(a, k) + EventsFor(b, k)
    decreases |b|
  {
    if b != [] {
      var b' := b[..|b| - 1];
      assert (a + b)[..|a + b| - 1] == a + b';
      assert (a + b)[|a + b| - 1] == b[|b| - 1];
      EventsForAppend(a, b', k);
    } else {
      assert a + b == a;
    }
  }

  /** The reference definition of what one run reports about link `k`,
      given what the two snapshots hold for it. */
  function Expected(olds: Snapshot, news: Snapshot, k: string): seq<Event> {
    match (Lookup(olds, k), Lookup(news, k))
    case (None, None) => []
    case (Some(o), None) => [Removed(k, o.name, o.price)]
    case (None, Some(n)) => [NewListing(k, n.name, n.price)]
    case (Some(o), Some(n)) =>
      if n.price < o.price then [Discount(k, n.name, o.price, n.price)]
      else if n.price > o.price then [PriceUp(k, n.name, o.price, n.price)]
      else []
  }

  lemma DistinctInit(s: Snapshot)
    requires s != [] && DistinctKeys(s)
    ensures DistinctKeys(s[..|s| - 1])
    ensures !HasKey(s[..|s| - 1], s[|s| - 1].link)
    ensures forall x :: HasKey(s, x) <==> HasKey(s[..|s| - 1], x) || x == s[|s| - 1].link
  {
    var init := s[..|s| - 1];
    forall i, j | 0 <= i < j < |init| ensures init[i].link != init[j].link {
      assert init[i] == s[i] && init[j] == s[j];
    }
    forall i | 0 <= i < |init| ensures init[i].link != s[|s| - 1].link {
      assert init[i] == s[i];
    }
    forall x ensures HasKey(s, x) <==> HasKey(init, x) || x == s[|s| - 1].link {
      if HasKey(s, x) {
        var i :| 0 <= i < |s| && s[i].link == x;
        if i < |init| { assert init[i].link == x; }
      }
      if HasKey(init, x) {
        var i :| 0 <= i < |init| && init[i].link == x;
        assert s[i].link == x;
      }
    }
  }

  /** In a dict, looking a key up in all but the last entry agrees with
      looking it up in the whole, unless the key is the last one. */
  lemma LookupInit(s: Snapshot, k: string)
    requires s != [] && DistinctKeys(s)
    ensures k == s[|s| - 1].link ==> Lookup(s, k) == Some(s[|s| - 1].rec) && Lookup(s[..|s| - 1], k) == None
    ensures k != s[|s| - 1].link ==> Lookup(s, k) == Lookup(s[..|s| - 1], k)
  {
    var init := s[..|s| - 1];
    DistinctInit(s);
    LookupFacts(s, k);
    LookupFacts(init, k);
    if HasKey(init, k) {
      var i :| 0 <= i < |init| && init[i].link == k;
      assert s[i] == init[i];
    }
  }

  /** The events one entry produces are all about that entry's link. */
  lemma CompareFor(e: Entry, olds: Snapshot, k: string)
    ensures EventsFor(Compare(e, olds), k) == if e.link == k then Compare(e, olds) else []
  {
    var c := Compare(e, olds);
    if c != [] {
      assert c == [] + [c[0]];
    }
  }

  /** The events the first pass reports about `k`, from the entry `news`
      holds for it. */
  function FirstPassFor(news: Snapshot, olds: Snapshot, k: string): seq<Event> {
    match Lookup(news, k)
    case None => []
    case Some(n) => Compare(Entry(k, n), olds)
  }

  lemma {:induction false} FirstPassPerKey(news: Snapshot, olds: Snapshot, k: string)
    requires DistinctKeys(news)
    ensures EventsFor(FirstPass(news, olds), k) == FirstPassFor(news, olds, k)
  {
    if news != [] {
      var init, last := news[..|news| - 1], news[|news| - 1];
      DistinctInit(news);
      FirstPassPerKey(init, olds, k);
      EventsForAppend(FirstPass(init, olds), Compare(last, olds), k);
      CompareFor(last, olds, k);
      FirstPassForInit(news, olds, k);
    }
  }

  lemma FirstPassForInit(news: Snapshot, olds: Snapshot, k: string)
    requires news != [] && DistinctKeys(news)
    ensures FirstPassFor(news, olds, k) ==
      FirstPassFor(news[..|news| - 1], olds, k) + if news[|news| - 1].link == k then Compare(news[|news| - 1], olds) else []
  {
    LookupInit(news, k);
    var last := news[|news| - 1];
    if last.link == k {
      assert last == Entry(k, last.rec);
    }
  }

  /** The events the second pass reports about `k`, from the entry `olds`
      holds for it. */
  function SecondPassFor(olds: Snapshot, news: Snapshot, k: string): seq<Event> {
    match Lookup(olds, k)
    case None => []
    case Some(o) => if HasKey(news, k) then [] else [Removed(k, o.name, o.price)]
  }

  lemma {:induction false} SecondPassPerKey(olds: Snapshot, news: Snapshot, k: string)
    requires DistinctKeys(olds)
    ensures EventsFor(SecondPass(olds, news), k) == SecondPassFor(olds, news, k)
  {
    if olds != [] {
      var init, last := olds[..|olds| - 1], olds[|olds| - 1];
      DistinctInit(olds);
      SecondPassPerKey(init, news, k);
      EventsForAppend(SecondPass(init, news), Gone(last, news), k);
      GoneFor(last, news, k);
      SecondPassForInit(olds, news, k);
    }
  }

  /** The event one stored entry produces is about that entry's link. */
  lemma GoneFor(e: Entry, news: Snapshot, k: string)
    ensures EventsFor(Gone(e, news), k) == if e.link == k then Gone(e, news) else []
  {
    var g := Gone(e, news);
    if g != [] {
      assert g == [] + [g[0]];
    }
  }

  lemma SecondPassForInit(olds: Snapshot, news: Snapshot, k: string)
    requires olds != [] && DistinctKeys(olds)
    ensures SecondPassFor(olds, news, k) ==
      SecondPassFor(olds[..|olds| - 1], news, k) + if olds[|olds| - 1].link == k then Gone(olds[|olds| - 1], news) else []
  {
    LookupInit(olds, k);
  }

  /** What the run reports about each link is exactly one NEW LISTING, one
      DISCOUNT, one PRICE UP, one REMOVED or nothing, as Expected says. */
  lemma ReconcilePerKey(olds: Snapshot, news: Snapshot, k: string)
    requires DistinctKeys(olds) && DistinctKeys(news)
    ensures EventsFor(Reconcile(olds, news), k) == Expected(olds, news, k)
  {
    EventsForAppend(FirstPass(news, olds), SecondPass(olds, news), k);
    FirstPassPerKey(news, olds, k);
    SecondPassPerKey(olds, news, k);
    LookupFacts(news, k);
    var f, g := FirstPassFor(news, olds, k), SecondPassFor(olds, news, k);
    assert EventsFor(Reconcile(olds, news), k) == f + g;
    match Lookup(news, k)
    case None =>
      assert f == [];
      assert !HasKey(news, k);
      assert f + g == g;
    case Some(n) =>
      assert HasKey(news, k);
      assert g == [];
      assert f == Compare(Entry(k, n), olds);
      assert f + g == f;
  }

  /** A snapshot compared with itself logs nothing. */
  lemma ReconcileSelf(s: Snapshot)
    requires DistinctKeys(s)
    ensures Reconcile(s, s) == []
  {
    forall i | 0 <= i < |s| ensures Lookup(s, s[i].link) == Some(s[i].rec) {
      LookupFacts(s, s[i].link);
    }
    FirstPassUnchanged(s, s);
    SecondPassKept(s, s);
  }

  lemma {:induction false} FirstPassUnchanged(news: Snapshot, olds: Snapshot)
    requires forall i :: 0 <= i < |news| ==>
      Lookup(olds, news[i].link).Some? && Lookup(olds, news[i].link).value.price == news[i].rec.price
    ensures FirstPass(news, olds) == []
  {
    if news != [] {
      var init := news[..|news| - 1];
      forall i | 0 <= i < |init| ensures
        Lookup(olds, init[i].link).Some? && Lookup(olds, init[i].link).value.price == init[i].rec.price
      {
        assert init[i] == news[i];
      }
      FirstPassUnchanged(init, olds);
      assert Lookup(olds, news[|news| - 1].link).Some?;
    }
  }

  lemma {:induction false} SecondPassKept(olds: Snapshot, news: Snapshot)
    requires forall i :: 0 <= i < |olds| ==> HasKey(news, olds[i].link)
    ensures SecondPass(olds, news) == []
  {
    if olds != [] {
      var init := olds[..|olds| - 1];
      forall i | 0 <= i < |init| ensures HasKey(news, init[i].link) {
        assert init[i] == olds[i];
      }
      SecondPassKept(init, news);
    }
  }

  /** Against an empty (or missing) price file every scraped listing is
      reported new, in scrape order. */
  lemma {:induction false} ReconcileFromEmpty(news: Snapshot)
    ensures |Reconcile([], news)| == |news|
    ensures forall i :: 0 <= i < |news| ==>
      Reconcile([], news)[i] == NewListing(news[i].link, news[i].rec.name, news[i].rec.price)
  {
    if news != [] {
      var init := news[..|news| - 1];
      ReconcileFromEmpty(init);
      assert Reconcile([], news) == Reconcile([], init) + [NewListing(news[|news| - 1].link, news[|news| - 1].rec.name, news[|news| - 1].rec.price)];
      forall i | 0 <= i < |init| ensures init[i] == news[i] { }
    }
  }

  /** Were the new snapshot empty, every stored listing would be reported
      removed, in file order. */
  lemma {:induction false} ReconcileToEmpty(olds: Snapshot)
    ensures |Reconcile(olds, [])| == |olds|
    ensures forall i :: 0 <= i < |olds| ==>
      Reconcile(olds, [])[i] == Removed(olds[i].link, olds[i].rec.name, olds[i].rec.price)
  {
    if olds != [] {
      var init := olds[..|olds| - 1];
      ReconcileToEmpty(init);
      assert Reconcile(olds, []) == Reconcile(init, []) + [Removed(olds[|olds| - 1].link, olds[|olds| - 1].rec.name, olds[|olds| - 1].rec.price)];
      forall i | 0 <= i < |init| ensures init[i] == olds[i] { }
    }
  }

  /** An entry produces no event exactly when it was stored at its price. */
  lemma CompareSilent(e: Entry, olds: Snapshot)
    ensures Compare(e, olds) == [] <==>
      Lookup(olds, e.link).Some? && Lookup(olds, e.link).value.price == e.rec.price
  {
  }

  /** The first pass is silent only when every new entry was already
      stored at the same price. */
  lemma {:induction false} FirstPassEmpty(news: Snapshot, olds: Snapshot)
    requires FirstPass(news, olds) == []
    ensures forall i :: 0 <= i < |news| ==>
      Lookup(olds, news[i].link).Some? && Lookup(olds, news[i].link).value.price == news[i].rec.price
  {
    if news != [] {
      var init, last := news[..|news| - 1], news[|news| - 1];
      assert FirstPass(init, olds) == [] && Compare(last, olds) == [] by {
        assert FirstPass(news, olds) == FirstPass(init, olds) + Compare(last, olds);
      }
      CompareSilent(last, olds);
      FirstPassEmpty(init, olds);
      forall i | 0 <= i < |news| ensures
        Lookup(olds, news[i].link).Some? && Lookup(olds, news[i].link).value.price == news[i].rec.price
      {
        if i < |init| { assert news[i] == init[i]; }
      }
    }
  }

  /** The second pass is silent only when every stored link was scraped
      again. */
  lemma {:induction false} SecondPassEmpty(olds: Snapshot, news: Snapshot)
    requires SecondPass(olds, news) == []
    ensures forall i :: 0 <= i < |olds| ==> HasKey(news, olds[i].link)
  {
    if olds != [] {
      var init, last := olds[..|olds| - 1], olds[|olds| - 1];
      assert SecondPass(init, news) == [] && Gone(last, news) == [];
      SecondPassEmpty(init, news);
      forall i | 0 <= i < |olds| ensures HasKey(news, olds[i].link) {
        if i < |init| { assert olds[i] == init[i]; }
      }
    }
  }

  /** "No price changes or new/removed listings detected." is printed
      exactly when every scraped listing was stored at the same price and
      every stored listing was scraped again. */
  lemma ReconcileEmptyIff(olds: Snapshot, news: Snapshot)
    ensures Reconcile(olds, news) == [] <==>
      (forall i :: 0 <= i < |news| ==>
         Lookup(olds, news[i].link).Some? && Lookup(olds, news[i].link).value.price == news[i].rec.price) &&
      (forall j :: 0 <= j < |olds| ==> HasKey(news, olds[j].link))
  {
    if Reconcile(olds, news) == [] {
      FirstPassEmpty(news, olds);
      SecondPassEmpty(olds, news);
    }
    if (forall i :: 0 <= i < |news| ==>
         Lookup(olds, news[i].link).Some? && Lookup(olds, news[i].link).value.price == news[i].rec.price) &&
       (forall j :: 0 <= j < |olds| ==> HasKey(news, olds[j].link)) {
      FirstPassUnchanged(news, olds);
      SecondPassKept(olds, news);
    }
  }

  /** The first pass reports no removal, at most one event per new entry,
      and only about scraped links. */
  lemma {:induction false} FirstPassShape(news: Snapshot, olds: Snapshot)
    ensures |FirstPass(news, olds)| <= |news|
    ensures forall i :: 0 <= i < |FirstPass(news, olds)| ==>
      !FirstPass(news, olds)[i].Removed? && HasKey(news, FirstPass(news, olds)[i].link)
  {
    if news != [] {
      var init, last := news[..|news| - 1], news[|news| - 1];
      FirstPassShape(init, olds);
      var f: seq<Event>, c: seq<Event> := FirstPass(init, olds), Compare(last, olds);
      assert FirstPass(news, olds) == f + c;
      forall i | 0 <= i < |f + c| ensures !(f + c)[i].Removed? && HasKey(news, (f + c)[i].link) {
        if i < |f| {
          var j :| 0 <= j < |init| && init[j].link == f[i].link;
          assert news[j] == init[j];
        } else {
          assert (f + c)[i] == c[i - |f|];
          assert news[|news| - 1].link == c[i - |f|].link;
        }
      }
    }
  }

  /** The second pass reports only removals, at most one per stored entry,
      each about a stored link that was not scraped again. */
  lemma {:induction false} SecondPassShape(olds: Snapshot, news: Snapshot)
    ensures |SecondPass(olds, news)| <= |olds|
    ensures forall i :: 0 <= i < |SecondPass(olds, news)| ==>
      SecondPass(olds, news)[i].Removed? && HasKey(olds, SecondPass(olds, news)[i].link) &&
      !HasKey(news, SecondPass(olds, news)[i].link)
  {
    if olds != [] {
      var init, last := olds[..|olds| - 1], olds[|olds| - 1];
      SecondPassShape(init, news);
      var f: seq<Event>, g: seq<Event> := SecondPass(init, news), Gone(last, news);
      assert SecondPass(olds, news) == f + g;
      forall i | 0 <= i < |f + g| ensures
        (f + g)[i].Removed? && HasKey(olds, (f + g)[i].link) && !HasKey(news, (f + g)[i].link)
      {
        if i < |f| {
          var j :| 0 <= j < |init| && init[j].link == f[i].link;
          assert olds[j] == init[j];
        } else {
          assert (f + g)[i] == g[i - |f|];
          assert olds[|olds| - 1].link == g[i - |f|].link;
        }
      }
    }
  }

  /** Removals are logged after every new listing and price change, and a
      run logs at most one event per entry of either snapshot. */
  lemma ReconcileOrder(olds: Snapshot, news: Snapshot)
    ensures |Reconcile(olds, news)| <= |news| + |olds|
    ensures forall i, j :: 0 <= i < j < |Reconcile(olds, news)| && Reconcile(olds, news)[i].Removed? ==>
      Reconcile(olds, news)[j].Removed?
  {
    FirstPassShape(news, olds);
    SecondPassShape(olds, news);
    var f: seq<Event>, g: seq<Event> := FirstPass(news, olds), SecondPass(olds, news);
    forall i, j | 0 <= i < j < |f + g| && (f + g)[i].Removed? ensures (f + g)[j].Removed? {
      assert (f + g)[j] == g[j - |f|];
    }
  }
}
