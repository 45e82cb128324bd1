/** Listing records and snapshots. A snapshot is a Python dict from the
    canonical listing link to `{"name": ..., "price": ...}`; since the
    tracker walks it in insertion order, it is modelled as a sequence of
    (link, record) entries with distinct links. This module also holds the
    record-building rule of the scraping loop in price_tracker.py. */
module Listings {
  import opened Wrappers
  import opened Text
  import opened Decimal
  import opened Normalise

  datatype Record = Record(name: string, price: nat)

  datatype Entry = Entry(link: string, rec: Record)

  type Snapshot = seq<Entry>

  /** `k in d`. */
  predicate HasKey(s: Snapshot, k: string) {
    exists i :: 0 <= i < |s| && s[i].link == k
  }

  /** The invariant of a dict: no link occurs twice. */
  predicate DistinctKeys(s: Snapshot) {
    forall i, j :: 0 <= i < j < |s| ==> s[i].link != s[j].link
  }

  /** `d.get(k)`. */
  function Lookup(s: Snapshot, k: string): Option<Record> {
    if s == [] then None
    else if s[0].link == k then Some(s[0].rec)
    else Lookup(s[1..], k)
  }

  /** `d.get(k)` finds a record exactly when `k in d`, and in a dict it is
      the record stored under `k`. */
  lemma {:induction false} LookupFacts(s: Snapshot, k: string)
    ensures Lookup(s, k).Some? <==> HasKey(s, k)
    ensures DistinctKeys(s) ==> forall i :: 0 <= i < |s| && s[i].link == k ==> Lookup(s, k) == Some(s[i].rec)
  {
    if s != [] {
      var s' := s[1..];
      LookupFacts(s', k);
      if HasKey(s, k) && s[0].link != k {
        var i :| 0 <= i < |s| && s[i].link == k;
        assert s'[i - 1].link == k;
      }
      if HasKey(s', k) {
        var i :| 0 <= i < |s'| && s'[i].link == k;
        assert s[i + 1].link == k;
      }
      if DistinctKeys(s) {
        assert DistinctKeys(s') by {
          forall i, j | 0 <= i < j < |s'| ensures s'[i].link != s'[j].link {
            assert s'[i] == s[i + 1] && s'[j] == s[j + 1];
          }
        }
        forall i | 0 <= i < |s| && s[i].link == k ensures Lookup(s, k) == Some(s[i].rec) {
          if i > 0 { assert s'[i - 1] == s[i]; }
        }
      }
    }
  }

  /** `d[k] = r`. */
  function Put(s: Snapshot, k: string, r: Record): Snapshot {
    if HasKey(s, k) then
      seq(|s|, i requires 0 <= i < |s| => if s[i].link == k then Entry(k, r) else s[i])
    else
      s + [Entry(k, r)]
  }

  /** Assigning to a dict key: a new key goes at the end and an existing key
      keeps its position; the key then holds `r`, every other key keeps its
      record, and the keys stay distinct. */
  lemma PutFacts(s: Snapshot, k: string, r: Record)
    ensures forall x :: HasKey(Put(s, k, r), x) <==> HasKey(s, x) || x == k
    ensures !HasKey(s, k) ==> Put(s, k, r) == s + [Entry(k, r)]
    ensures HasKey(s, k) ==> |Put(s, k, r)| == |s| && forall i :: 0 <= i < |s| ==> Put(s, k, r)[i].link == s[i].link
    ensures DistinctKeys(s) ==> DistinctKeys(Put(s, k, r))
    ensures DistinctKeys(s) ==> Lookup(Put(s, k, r), k) == Some(r)
    ensures DistinctKeys(s) ==> forall x :: x != k ==> Lookup(Put(s, k, r), x) == Lookup(s, x)
  {
    var t := Put(s, k, r);
    assert |s| <= |t| <= |s| + 1;
    assert forall i :: 0 <= i < |s| ==> t[i] == if s[i].link == k then Entry(k, r) else s[i];
    assert |t| == |s| + 1 ==> t[|s|] == Entry(k, r);
    forall x ensures HasKey(t, x) <==> HasKey(s, x) || x == k {
      if HasKey(s, x) {
        var i :| 0 <= i < |s| && s[i].link == x;
        assert t[i].link == x;
      }
      if x == k {
        if |t| == |s| + 1 {
          assert t[|s|].link == k;
        } else {
          var i :| 0 <= i < |s| && s[i].link == k;
          assert t[i].link == k;
        }
      }
      if HasKey(t, x) {
        var i :| 0 <= i < |t| && t[i].link == x;
        if i < |s| && x != k { assert s[i].link == x; }
      }
    }
    if DistinctKeys(s) {
      forall i, j | 0 <= i < j < |t| ensures t[i].link != t[j].link {
        if j < |s| {
          assert s[i].link != s[j].link;
        } else {
          assert s[i].link != k;
        }
      }
      var ik :| 0 <= ik < |t| && t[ik].link == k;
      assert t[ik] == Entry(k, r);
      LookupFacts(t, k);
      forall x | x != k ensures Lookup(t, x) == Lookup(s, x) {
        LookupFacts(t, x);
        LookupFacts(s, x);
        if HasKey(t, x) {
          var i :| 0 <= i < |t| && t[i].link == x;
          assert i < |s| && t[i] == s[i];
        }
      }
    }
  }

  /** `dict(pairs)`, and what `json.load` builds from an object's members:
      a key written twice keeps its first position and its last value. */
  function FromPairs(ps: seq<Entry>): Snapshot {
    if ps == [] then [] else Put(FromPairs(ps[..|ps| - 1]), ps[|ps| - 1].link, ps[|ps| - 1].rec)
  }

  /** A dict built from pairs has distinct keys, and exactly the keys of
      the pairs. */
  lemma {:induction false} FromPairsFacts(ps: seq<Entry>)
    ensures DistinctKeys(FromPairs(ps))
    ensures forall x :: HasKey(FromPairs(ps), x) <==> HasKey(ps, x)
  {
    if ps != [] {
      var init, last := ps[..|ps| - 1], ps[|ps| - 1];
      FromPairsFacts(init);
      PutFacts(FromPairs(init), last.link, last.rec);
      forall x ensures HasKey(ps, x) <==> HasKey(init, x) || x == last.link {
        if HasKey(ps, x) {
          var i :| 0 <= i < |ps| && ps[i].link == x;
          if i < |init| { assert init[i].link == x; }
        }
        if HasKey(init, x) {
          var i :| 0 <= i < |init| && init[i].link == x;
          assert ps[i].link == x;
        }
      }
    }
  }

  /** The record of the last entry of `ps` for `k`. */
  function LastFor(ps: seq<Entry>, k: string): Option<Record> {
    if ps == [] then None
    else if ps[|ps| - 1].link == k then Some(ps[|ps| - 1].rec)
    else LastFor(ps[..|ps| - 1], k)
  }

  /** A key of a dict built from pairs holds the value of its last pair. */
  lemma {:induction false} FromPairsLookup(ps: seq<Entry>, k: string)
    ensures Lookup(FromPairs(ps), k) == LastFor(ps, k)
  {
    if ps != [] {
      var init, last := ps[..|ps| - 1], ps[|ps| - 1];
      FromPairsLookup(init, k);
      FromPairsFacts(init);
      PutFacts(FromPairs(init), last.link, last.rec);
    }
  }

  /** Building a dict from pairs whose keys are already distinct gives the
      pairs back, in order. */
  lemma {:induction false} FromPairsDistinct(ps: seq<Entry>)
    requires DistinctKeys(ps)
    ensures FromPairs(ps) == ps
  {
    if ps != [] {
      var init, last := ps[..|ps| - 1], ps[|ps| - 1];
      assert DistinctKeys(init) by {
        forall i, j | 0 <= i < j < |init| ensures init[i].link != init[j].link {
          assert init[i] == ps[i] && init[j] == ps[j];
        }
      }
      FromPairsDistinct(init);
      forall i | 0 <= i < |init| ensures init[i].link != last.link {
        assert init[i] == ps[i];
      }
      PutFacts(init, last.link, last.rec);
      assert ps == init + [last];
    }
  }

  /** One listing as the scraper reads it: `get_attribute('href')` and the
      two `text_content()` calls each give a string or None; Unreadable is a
      listing whose fields raised (a locator timed out). */
  datatype RawListing =
    | Unreadable
    | Scraped(link: Option<string>, name: Option<string>, priceText: Option<string>)

  const SiteOrigin: string := "https://en.uhomes.com"

  /** A site-relative link is made absolute. */
  function FullLink(link: string): (r: string)
  {
    if |link| > 0 && link[0] == '/' then SiteOrigin + link else link
  }

  /** The link a listing is stored under ends with the `href` it was read
      from, is never site-relative, and is its own canonical form, so a
      stored link is the same key from one run to the next. */
  lemma FullLinkFacts(link: string)
    ensures |link| <= |FullLink(link)| && FullLink(link)[|FullLink(link)| - |link|..] == link
    ensures !(|FullLink(link)| > 0 && FullLink(link)[0] == '/')
    ensures FullLink(FullLink(link)) == FullLink(link)
    ensures |link| > 0 && link[0] == '/' ==> SiteOrigin <= FullLink(link)
  {
    if |link| > 0 && link[0] == '/' {
      assert FullLink(link)[0] == 'h';
    }
  }

  function AsPyValue(t: Option<string>): PyValue {
    if t.Some? then Str(t.value) else NonStr
  }

  /** The body of the scraping loop for one listing: the entry it stores,
      or None when the listing is skipped or its processing raised. */
  function BuildEntry(raw: RawListing): Option<Entry>
  {
    match raw
    case Unreadable => None
    case Scraped(link, name, priceText) =>
      match CleanPrice(AsPyValue(priceText))
      case FloatError => None
      case NoPrice => None
      case Price(p) =>
        if link.Some? && link.value != [] && name.Some? && name.value != [] then
          Some(Entry(FullLink(link.value), Record(Strip(name.value), p)))
        else None
  }

  /** A listing is stored exactly when it was read, its link and its name
      are non-empty and its price text normalises to a number; the stored
      entry has the canonical link, the stripped name and that number. So
      the stored name has no whitespace at its ends, the link is never
      site-relative, and the price is the value of the digits of the first
      run of digits and commas of the price text, which holds a digit. */
  lemma BuildEntryRule(raw: RawListing)
    ensures BuildEntry(raw).Some? <==>
      raw.Scraped? && raw.link.Some? && raw.link.value != [] && raw.name.Some? && raw.name.value != []
      && CleanPrice(AsPyValue(raw.priceText)).Price?
    ensures BuildEntry(raw).Some? ==>
      BuildEntry(raw).value == Entry(FullLink(raw.link.value), Record(Strip(raw.name.value), CleanPrice(AsPyValue(raw.priceText)).value))
    ensures BuildEntry(raw).Some? ==>
      var e := BuildEntry(raw).value;
      NoSpaceAtEnds(e.rec.name) && FullLink(e.link) == e.link && !(|e.link| > 0 && e.link[0] == '/') &&
      raw.priceText.Some? && FirstRun(raw.priceText.value).Some? && HasDigit(FirstRun(raw.priceText.value).value) &&
      e.rec.price == ValueOf(RemoveCommas(FirstRun(raw.priceText.value).value))
  {
    if BuildEntry(raw).Some? {
      StripFacts(raw.name.value);
      FullLinkFacts(raw.link.value);
      CleanPriceSpec(AsPyValue(raw.priceText));
    }
  }

  /** The values `f` gives for the elements of `xs` that it does not drop,
      in order. */
  function FilterMap<A, B>(f: A -> Option<B>, xs: seq<A>): (ys: seq<B>)
    ensures |ys| <= |xs|
  {
    if xs == [] then []
    else
      var last := f(xs[|xs| - 1]);
      FilterMap(f, xs[..|xs| - 1]) + if last.Some? then [last.value] else []
  }

  lemma {:induction false} FilterMapMembers<A, B>(f: A -> Option<B>, xs: seq<A>, y: B)
    ensures y in FilterMap(f, xs) <==> exists i :: 0 <= i < |xs| && f(xs[i]) == Some(y)
  {
    if xs != [] {
      var init, last := xs[..|xs| - 1], xs[|xs| - 1];
      var tail := if f(last).Some? then [f(last).value] else [];
      assert FilterMap(f, xs) == FilterMap(f, init) + tail;
      FilterMapMembers(f, init, y);
      if y in FilterMap(f, init) {
        var i :| 0 <= i < |init| && f(init[i]) == Some(y);
        assert xs[i] == init[i];
      }
      if exists i :: 0 <= i < |xs| && f(xs[i]) == Some(y) {
        var i :| 0 <= i < |xs| && f(xs[i]) == Some(y);
        if i < |init| { assert init[i] == xs[i]; }
      }
    }
  }

  /** The entries the loop stores, in the order it stores them. */
  function Accepted(raws: seq<RawListing>): (es: seq<Entry>)
    ensures |es| <= |raws|
  {
    FilterMap(BuildEntry, raws)
  }

  /** Exactly the listings BuildEntry keeps reach Accepted. */
  lemma AcceptedMembers(raws: seq<RawListing>, e: Entry)
    ensures e in Accepted(raws) <==> exists i :: 0 <= i < |raws| && BuildEntry(raws[i]) == Some(e)
  {
    FilterMapMembers(BuildEntry, raws, e);
  }

  /** The dict `run_scraper` returns for a sequence of listings. */
  function Collect(raws: seq<RawListing>): Snapshot {
    FromPairs(Accepted(raws))
  }

  /** The scraping loop of `run_scraper`, with the page's listings as input. */
  method CollectListings(raws: seq<RawListing>) returns (snap: Snapshot)
    ensures snap == Collect(raws)
  {
    snap := [];
    var i := 0;
    while i < |raws|
      invariant 0 <= i <= |raws|
      invariant snap == FromPairs(Accepted(raws[..i]))
    {
      var e := BuildEntry(raws[i]);
      ghost var acc, acc' := Accepted(raws[..i]), Accepted(raws[..i + 1]);
      assert raws[..i + 1][..i] == raws[..i] && raws[..i + 1][i] == raws[i];
      assert acc' == acc + if e.Some? then [e.value] else [];
      if e.Some? {
        assert acc'[..|acc'| - 1] == acc && acc'[|acc'| - 1] == e.value;
        assert FromPairs(acc') == Put(FromPairs(acc), e.value.link, e.value.rec);
        snap := Put(snap, e.value.link, e.value.rec);
      } else {
        assert acc' == acc;
      }
      i := i + 1;
    }
    assert raws[..i] == raws;
  }

  /** The scraped snapshot is a dict; each of its links holds the record of
      the last listing that produced the link, and a link is present exactly
      when some listing produced it. */
  lemma CollectLookup(raws: seq<RawListing>, k: string)
    ensures DistinctKeys(Collect(raws))
    ensures Lookup(Collect(raws), k) == LastFor(Accepted(raws), k)
    ensures HasKey(Collect(raws), k) <==>
      exists i :: 0 <= i < |raws| && BuildEntry(raws[i]).Some? && BuildEntry(raws[i]).value.link == k
  {
    var acc := Accepted(raws);
    FromPairsLookup(acc, k);
    FromPairsFacts(acc);
    if HasKey(acc, k) {
      var j :| 0 <= j < |acc| && acc[j].link == k;
      AcceptedMembers(raws, acc[j]);
    }
    if exists i :: 0 <= i < |raws| && BuildEntry(raws[i]).Some? && BuildEntry(raws[i]).value.link == k {
      var i :| 0 <= i < |raws| && BuildEntry(raws[i]).Some? && BuildEntry(raws[i]).value.link == k;
      AcceptedMembers(raws, BuildEntry(raws[i]).value);
      var j :| 0 <= j < |acc| && acc[j] == BuildEntry(raws[i]).value;
      assert acc[j].link == k;
    }
  }
}
