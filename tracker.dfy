/** The price tracker: the saved price file, the change log and the console,
    and one run of `track_prices` over them. */
module Tracker {
  import opened Wrappers
  import opened Decimal
  import opened Listings
  import opened Comparison

  /** What `uhomes_prices.json` holds before a run: nothing, text that is
      not JSON, or a JSON object given as its key/record pairs in file order
      (duplicate keys included). */
  datatype StoredFile = Missing | Corrupt | Holds(pairs: seq<Entry>)

  const PriceFileName: string := "uhomes_prices.json"
  const LoadWarning: string := "Warning: Could not decode " + PriceFileName + ", starting fresh."
  const AbortMessage: string := "No new data scraped. Aborting comparison."
  const CompareMessage: string := "\nComparing prices..."
  const NoChangeMessage: string := "No price changes or new/removed listings detected."
  const SaveMessage: string := "\nSaving current prices to " + PriceFileName + "..."
  const DoneMessage: string := "Tracker finished."

  /** The dict `load_old_prices` returns. `json.load` keeps the last value
      of a repeated key at the key's first position, which is what FromPairs
      does. */
  function Load(f: StoredFile): Snapshot {
    match f
    case Holds(pairs) => FromPairs(pairs)
    case _ => []
  }

  /** What `load_old_prices` prints. */
  function LoadOutput(f: StoredFile): seq<string> {
    if f.Corrupt? then [LoadWarning] else []
  }

  /** Whatever the file holds, the loaded prices form a dict whose every
      link holds the last record the file gave it, and a saved dict is
      loaded back unchanged. */
  lemma LoadFacts(f: StoredFile, k: string)
    ensures DistinctKeys(Load(f))
    ensures !f.Holds? ==> Load(f) == []
    ensures f.Holds? ==> Lookup(Load(f), k) == LastFor(f.pairs, k)
    ensures f.Holds? && DistinctKeys(f.pairs) ==> Load(f) == f.pairs
  {
    if f.Holds? {
      FromPairsFacts(f.pairs);
      FromPairsLookup(f.pairs, k);
      if DistinctKeys(f.pairs) {
        FromPairsDistinct(f.pairs);
      }
    }
  }

  /** A price as an f-string writes a float holding a whole number. */
  function Money(n: nat): string {
    "£" + Show(n) + ".0"
  }

  /** The amount can be read back from its text. */
  lemma MoneyValue(n: nat)
    ensures |Money(n)| >= 4 && Money(n)[0] == '£' && Money(n)[|Money(n)| - 2..] == ".0"
    ensures AllDigits(Money(n)[1..|Money(n)| - 2])
    ensures ValueOf(Money(n)[1..|Money(n)| - 2]) == n
  {
    var m := Money(n);
    assert m[1..|m| - 2] == Show(n);
    ValueOfShow(n);
  }

  /** Different prices are written differently in the log. */
  lemma MoneyInjective(m: nat, n: nat)
    requires Money(m) == Money(n)
    ensures m == n
  {
    MoneyValue(m);
    MoneyValue(n);
  }

  /** The log message of one change: what changed, then the link. */
  function Message(e: Event): string {
    Summary(e) + " | Link: " + e.link
  }

  /** What a log message says before the link. */
  function Summary(e: Event): string {
    match e
    case Discount(_, name, o, n) => "DISCOUNT! " + name + ": " + Money(o) + " -> " + Money(n)
    case PriceUp(_, name, o, n) => "PRICE UP! " + name + ": " + Money(o) + " -> " + Money(n)
    case NewListing(_, name, p) => "NEW LISTING! " + name + ": " + Money(p)
    case Removed(_, name, p) => "REMOVED! " + name + " (was " + Money(p) + ")"
  }

  /** The word that opens the log message of a change. */
  function Tag(e: Event): string {
    match e
    case Discount(_, _, _, _) => "DISCOUNT! "
    case PriceUp(_, _, _, _) => "PRICE UP! "
    case NewListing(_, _, _) => "NEW LISTING! "
    case Removed(_, _, _) => "REMOVED! "
  }

  /** The kind of change leads the message, and the link ends it. */
  lemma MessageShape(e: Event)
    ensures Tag(e) <= Message(e)
    ensures |Message(e)| >= |e.link| + 9
    ensures Message(e)[|Message(e)| - |e.link| - 9..] == " | Link: " + e.link
  {
    SummaryTag(e);
    Framed(Tag(e), Summary(e), e.link);
  }

  /** The summary of a change begins with its tag. */
  lemma SummaryTag(e: Event)
    ensures Tag(e) <= Summary(e)
  {
    var t := Tag(e);
    Grow(t, t, e.name);
    match e
    case Discount(_, name, o, n) =>
      Grow(t, t + name, ": ");
      Grow(t, t + name + ": ", Money(o));
      Grow(t, t + name + ": " + Money(o), " -> ");
      Grow(t, t + name + ": " + Money(o) + " -> ", Money(n));
    case PriceUp(_, name, o, n) =>
      Grow(t, t + name, ": ");
      Grow(t, t + name + ": ", Money(o));
      Grow(t, t + name + ": " + Money(o), " -> ");
      Grow(t, t + name + ": " + Money(o) + " -> ", Money(n));
    case NewListing(_, name, p) =>
      Grow(t, t + name, ": ");
      Grow(t, t + name + ": ", Money(p));
    case Removed(_, name, p) =>
      Grow(t, t + name, " (was ");
      Grow(t, t + name + " (was ", Money(p));
      Grow(t, t + name + " (was " + Money(p), ")");
  }

  lemma Grow(t: string, h: string, x: string)
    requires t <= h
    ensures t <= h + x
  {
    assert (h + x)[..|t|] == h[..|t|];
  }

  /** A message is its summary `h`, which begins with the tag `t`, then the
      link. */
  lemma Framed(t: string, h: string, link: string)
    requires t <= h
    ensures t <= h + " | Link: " + link
    ensures |h + " | Link: " + link| >= |link| + 9
    ensures (h + " | Link: " + link)[|h + " | Link: " + link| - |link| - 9..] == " | Link: " + link
  {
    var m := h + " | Link: " + link;
    assert m[..|t|] == h[..|t|];
    assert m == h + (" | Link: " + link);
  }

  /** One line of the log: the timestamp in brackets, then the message. */
  function Line(stamp: string, message: string): string {
    "[" + stamp + "] " + message
  }

  /** The log lines of a run's changes, stamped from the run's `start`-th
      change on: the i-th line carries the i-th change, stamped with the
      clock's reading `clock(start + i)`. */
  function Lines(evs: seq<Event>, clock: nat -> string, start: nat): (r: seq<string>)
    ensures |r| == |evs|
  {
    seq(|evs|, i requires 0 <= i < |evs| => Line(clock(start + i), Message(evs[i])))
  }

  /** The log line of a single change. */
  lemma LinesOne(e: Event, clock: nat -> string, at: nat)
    ensures Lines([e], clock, at) == [Line(clock(at), Message(e))]
  {
  }

  /** The lines of two runs of changes logged one after the other: the
      stamps of the second continue where the first stopped. */
  lemma LinesAppend(a: seq<Event>, b: seq<Event>, clock: nat -> string, start: nat)
    ensures Lines(a + b, clock, start) == Lines(a, clock, start) + Lines(b, clock, start + |a|)
  {
    var whole, left, right := Lines(a + b, clock, start), Lines(a, clock, start), Lines(b, clock, start + |a|);
    forall i | 0 <= i < |whole| ensures whole[i] == (left + right)[i] {
      if i < |a| {
        assert (a + b)[i] == a[i];
      } else {
        assert (a + b)[i] == b[i - |a|];
      }
    }
  }

  /** The lines of events that split into `a` then `b` are the lines of `a`
      followed by those of `b`, numbered on from where `a` stops. */
  lemma LinesSplit(whole: seq<Event>, a: seq<Event>, b: seq<Event>, clock: nat -> string, start: nat, next: nat)
    requires whole == a + b && next == start + |a|
    ensures |whole| == |a| + |b|
    ensures Lines(whole, clock, start) == Lines(a, clock, start) + Lines(b, clock, next)
  {
    LinesAppend(a, b, clock, start);
  }

  /** A file that grew by `a` and then by `b` grew by `a + b`. */
  lemma Grew<T>(before: seq<T>, a: seq<T>, b: seq<T>, whole: seq<T>, after: seq<T>)
    requires whole == a + b && after == before + a + b
    ensures after == before + whole
  {
  }

  /** One more scraped entry extends the first loop's lines by what its
      comparison reports: at most one line. */
  lemma FirstPassStep(news: Snapshot, olds: Snapshot, i: nat, clock: nat -> string)
    requires i < |news|
    ensures |Compare(news[i], olds)| <= 1
    ensures |FirstPass(news[..i + 1], olds)| == |FirstPass(news[..i], olds)| + |Compare(news[i], olds)|
    ensures Lines(FirstPass(news[..i + 1], olds), clock, 0) ==
      Lines(FirstPass(news[..i], olds), clock, 0) + Lines(Compare(news[i], olds), clock, |FirstPass(news[..i], olds)|)
  {
    var done, c := FirstPass(news[..i], olds), Compare(news[i], olds);
    CompareAtMostOne(news[i], olds);
    FirstPassSnoc(news, olds, i);
    LinesSplit(FirstPass(news[..i + 1], olds), done, c, clock, 0, |done|);
  }

  /** One more stored entry extends the second loop's lines by the removal
      it reports, if any. */
  lemma SecondPassStep(olds: Snapshot, news: Snapshot, j: nat, clock: nat -> string, start: nat)
    requires j < |olds|
    ensures |Gone(olds[j], news)| <= 1
    ensures |SecondPass(olds[..j + 1], news)| == |SecondPass(olds[..j], news)| + |Gone(olds[j], news)|
    ensures Lines(SecondPass(olds[..j + 1], news), clock, start) ==
      Lines(SecondPass(olds[..j], news), clock, start) + Lines(Gone(olds[j], news), clock, start + |SecondPass(olds[..j], news)|)
  {
    var done, g := SecondPass(olds[..j], news), Gone(olds[j], news);
    assert SecondPass(olds[..j + 1], news) == done + g by {
      assert olds[..j + 1][..j] == olds[..j];
    }
    LinesSplit(SecondPass(olds[..j + 1], news), done, g, clock, start, start + |done|);
  }

  /** A file holding the first loop's lines for `news[..i]` that then
      receives the lines for `news[i]` holds the lines for `news[..i + 1]`. */
  lemma FirstPassLogged(news: Snapshot, olds: Snapshot, i: nat, clock: nat -> string, count: nat,
                        before: seq<string>, mid: seq<string>, after: seq<string>)
    requires i < |news| && count == |FirstPass(news[..i], olds)|
    requires mid == before + Lines(FirstPass(news[..i], olds), clock, 0)
    requires after == mid + Lines(Compare(news[i], olds), clock, count)
    ensures after == before + Lines(FirstPass(news[..i + 1], olds), clock, 0)
    ensures |FirstPass(news[..i + 1], olds)| == count + if Compare(news[i], olds) != [] then 1 else 0
  {
    FirstPassStep(news, olds, i, clock);
    Grew(before, Lines(FirstPass(news[..i], olds), clock, 0), Lines(Compare(news[i], olds), clock, count),
      Lines(FirstPass(news[..i + 1], olds), clock, 0), after);
  }

  /** A file holding the second loop's lines for `olds[..j]` that then
      receives the lines for `olds[j]` holds the lines for `olds[..j + 1]`. */
  lemma SecondPassLogged(olds: Snapshot, news: Snapshot, j: nat, clock: nat -> string, start: nat, removed: nat,
                         before: seq<string>, mid: seq<string>, after: seq<string>)
    requires j < |olds| && removed == |SecondPass(olds[..j], news)|
    requires mid == before + Lines(SecondPass(olds[..j], news), clock, start)
    requires after == mid + Lines(Gone(olds[j], news), clock, start + removed)
    ensures after == before + Lines(SecondPass(olds[..j + 1], news), clock, start)
    ensures |SecondPass(olds[..j + 1], news)| == removed + if Gone(olds[j], news) != [] then 1 else 0
  {
    SecondPassStep(olds, news, j, clock, start);
    Grew(before, Lines(SecondPass(olds[..j], news), clock, start), Lines(Gone(olds[j], news), clock, start + removed),
      Lines(SecondPass(olds[..j + 1], news), clock, start), after);
  }

  /** A file that received the first loop's lines and then the second
      loop's, stamped on from where the first stopped, received the lines of
      the whole run. */
  lemma ReconcileLogged(news: Snapshot, olds: Snapshot, clock: nat -> string,
                        before: seq<string>, mid: seq<string>, after: seq<string>)
    requires mid == before + Lines(FirstPass(news, olds), clock, 0)
    requires after == mid + Lines(SecondPass(olds, news), clock, |FirstPass(news, olds)|)
    ensures after == before + Lines(Reconcile(olds, news), clock, 0)
  {
    var first, second := FirstPass(news, olds), SecondPass(olds, news);
    LinesSplit(Reconcile(olds, news), first, second, clock, 0, |first|);
    Grew(before, Lines(first, clock, 0), Lines(second, clock, |first|), Lines(first + second, clock, 0), after);
  }

  /** How a run ends: aborted before comparing, or finished, saying whether
      any change was logged. */
  datatype RunOutcome = Aborted | Finished(changesFound: bool)

  /** The console output of one run, after what loading printed. */
  function RunOutput(evs: seq<Event>, clock: nat -> string): seq<string> {
    [CompareMessage] + Lines(evs, clock, 0) + NoChangeOutput(evs) + [SaveMessage, DoneMessage]
  }

  /** The notice printed after the two loops when neither logged anything. */
  function NoChangeOutput(evs: seq<Event>): seq<string> {
    if evs == [] then [NoChangeMessage] else []
  }

  lemma Regroup<T>(pre: seq<T>, c: T, lines: seq<T>, opt: seq<T>, s: T, d: T)
    ensures pre + [c] + lines + opt + [s] + [d] == pre + ([c] + lines + opt + [s, d])
  {
  }

  /** Running twice on the same scrape: the second run logs nothing, since
      the first saved exactly what was scraped. */
  lemma RerunLogsNothing(raws: seq<RawListing>)
    ensures Reconcile(Load(Holds(Collect(raws))), Collect(raws)) == []
  {
    var news := Collect(raws);
    FromPairsFacts(Accepted(raws));
    FromPairsDistinct(news);
    ReconcileSelf(news);
  }

  class PriceTracker {
    /** The price file on disk. */
    var priceFile: StoredFile
    /** The lines of `discounts.log`, oldest first. */
    var logFile: seq<string>
    /** What has been printed, one entry per `print`. */
    var console: seq<string>

    constructor (stored: StoredFile, log: seq<string>)
      ensures priceFile == stored && logFile == log && console == []
    {
      priceFile := stored;
      logFile := log;
      console := [];
    }

    /** `load_old_prices`. */
    method LoadOldPrices() returns (olds: Snapshot)
      modifies this`console
      ensures olds == Load(priceFile)
      ensures console == old(console) + LoadOutput(priceFile)
    {
      match priceFile
      case Missing =>
        olds := [];
      case Corrupt =>
        console := console + [LoadWarning];
        olds := [];
      case Holds(pairs) =>
        olds := FromPairs(pairs);
    }

    /** `save_prices`: the file is replaced by the dict. */
    method SavePrices(data: Snapshot)
      modifies this`priceFile
      ensures priceFile == Holds(data)
    {
      priceFile := Holds(data);
    }

    /** `log_change`: the stamped line is printed and appended to the log. */
    method LogChange(message: string, stamp: string)
      modifies this`logFile, this`console
      ensures logFile == old(logFile) + [Line(stamp, message)]
      ensures console == old(console) + [Line(stamp, message)]
    {
      var line := Line(stamp, message);
      console := console + [line];
      logFile := logFile + [line];
    }

    /** `track_prices`, given the listings the page showed and a clock whose
        i-th reading stamps the i-th change of the run. */
    method TrackPrices(raws: seq<RawListing>, clock: nat -> string) returns (outcome: RunOutcome)
      modifies this
      ensures Collect(raws) == [] ==>
        outcome == Aborted && priceFile == old(priceFile) && logFile == old(logFile) &&
        console == old(console) + LoadOutput(old(priceFile)) + [AbortMessage]
      ensures Collect(raws) != [] ==>
        var evs := Reconcile(Load(old(priceFile)), Collect(raws));
        outcome == Finished(evs != []) && priceFile == Holds(Collect(raws)) &&
        logFile == old(logFile) + Lines(evs, clock, 0) &&
        console == old(console) + LoadOutput(old(priceFile)) + RunOutput(evs, clock)
    {
      var olds := LoadOldPrices();
      var news := CollectListings(raws);
      if news == [] {
        console := console + [AbortMessage];
        return Aborted;
      }
      ghost var pre := console;
      console := console + [CompareMessage];
      ghost var evs := Reconcile(olds, news);
      var changesFound := LogChanges(news, olds, clock);
      ghost var mid := console;
      if !changesFound {
        console := console + [NoChangeMessage];
      } else {
        assert mid + [] == mid;
      }
      assert console == mid + NoChangeOutput(evs);
      console := console + [SaveMessage];
      SavePrices(news);
      console := console + [DoneMessage];
      Regroup(pre, CompareMessage, Lines(evs, clock, 0), NoChangeOutput(evs), SaveMessage, DoneMessage);
      outcome := Finished(changesFound);
    }

    /** The two loops of `track_prices`: the changes of the run are logged
        in order, the i-th stamped `clock(i)`. */
    method LogChanges(news: Snapshot, olds: Snapshot, clock: nat -> string) returns (changesFound: bool)
      modifies this`logFile, this`console
      ensures changesFound == (Reconcile(olds, news) != [])
      ensures logFile == old(logFile) + Lines(Reconcile(olds, news), clock, 0)
      ensures console == old(console) + Lines(Reconcile(olds, news), clock, 0)
    {
      ghost var log0, out0 := logFile, console;
      var changed, count := LogFirstPass(news, olds, clock);
      ghost var log1, out1 := logFile, console;
      var removed := LogSecondPass(olds, news, clock, count);
      ReconcileLogged(news, olds, clock, log0, log1, logFile);
      ReconcileLogged(news, olds, clock, out0, out1, console);
      ReconcileNonEmpty(olds, news);
      changesFound := changed || removed;
    }

    /** The first loop of `track_prices`: each scraped entry, in order, is
        compared with the stored one and a change is logged. */
    method LogFirstPass(news: Snapshot, olds: Snapshot, clock: nat -> string) returns (changesFound: bool, count: nat)
      modifies this`logFile, this`console
      ensures count == |FirstPass(news, olds)|
      ensures changesFound == (FirstPass(news, olds) != [])
      ensures logFile == old(logFile) + Lines(FirstPass(news, olds), clock, 0)
      ensures console == old(console) + Lines(FirstPass(news, olds), clock, 0)
    {
      changesFound := false;
      count := 0;
      var i := 0;
      while i < |news|
        invariant 0 <= i <= |news|
        invariant count == |FirstPass(news[..i], olds)| && changesFound == (count > 0)
        invariant logFile == old(logFile) + Lines(FirstPass(news[..i], olds), clock, 0)
        invariant console == old(console) + Lines(FirstPass(news[..i], olds), clock, 0)
      {
        var logged := CompareNext(news, i, olds, clock, count, old(logFile), old(console));
        if logged {
          changesFound := true;
          count := count + 1;
        }
        i := i + 1;
      }
      assert news[..i] == news;
    }

    /** The first loop's body for the scraped entry `news[i]`, whose change,
        if it is one, is the run's `count`-th: the log and the console, which
        held the lines of `news[..i]`, then hold those of `news[..i + 1]`. */
    method CompareNext(news: Snapshot, i: nat, olds: Snapshot, clock: nat -> string, count: nat,
                       ghost log0: seq<string>, ghost out0: seq<string>) returns (logged: bool)
      requires i < |news| && count == |FirstPass(news[..i], olds)|
      requires logFile == log0 + Lines(FirstPass(news[..i], olds), clock, 0)
      requires console == out0 + Lines(FirstPass(news[..i], olds), clock, 0)
      modifies this`logFile, this`console
      ensures |FirstPass(news[..i + 1], olds)| == count + if logged then 1 else 0
      ensures logFile == log0 + Lines(FirstPass(news[..i + 1], olds), clock, 0)
      ensures console == out0 + Lines(FirstPass(news[..i + 1], olds), clock, 0)
    {
      ghost var log1, out1 := logFile, console;
      logged := CompareEntry(news[i], olds, clock, count);
      FirstPassLogged(news, olds, i, clock, count, log0, log1, logFile);
      FirstPassLogged(news, olds, i, clock, count, out0, out1, console);
    }

    /** The first loop's body for one scraped entry, the run's `at`-th
        change if it is one: the stored entry is looked up and a discount, a
        price rise or a new listing is logged. */
    method CompareEntry(e: Entry, olds: Snapshot, clock: nat -> string, at: nat) returns (logged: bool)
      modifies this`logFile, this`console
      ensures logged == (Compare(e, olds) != [])
      ensures logFile == old(logFile) + Lines(Compare(e, olds), clock, at)
      ensures console == old(console) + Lines(Compare(e, olds), clock, at)
    {
      logged := false;
      var link, newData := e.link, e.rec;
      var oldData := Lookup(olds, link);
      if oldData.Some? {
        var oldPrice := oldData.value.price;
        if newData.price < oldPrice {
          var ev := Discount(link, newData.name, oldPrice, newData.price);
          LogChange(Message(ev), clock(at));
          LinesOne(ev, clock, at);
          logged := true;
        } else if newData.price > oldPrice {
          var ev := PriceUp(link, newData.name, oldPrice, newData.price);
          LogChange(Message(ev), clock(at));
          LinesOne(ev, clock, at);
          logged := true;
        } else {
          assert old(logFile) + [] == old(logFile) && old(console) + [] == old(console);
        }
      } else {
        var ev := NewListing(link, newData.name, newData.price);
        LogChange(Message(ev), clock(at));
        LinesOne(ev, clock, at);
        logged := true;
      }
    }

    /** The second loop of `track_prices`: each stored entry, in order, that
        was not scraped again is logged as removed; the stamps continue from
        the `start`-th change. */
    method LogSecondPass(olds: Snapshot, news: Snapshot, clock: nat -> string, start: nat) returns (changesFound: bool)
      modifies this`logFile, this`console
      ensures changesFound == (SecondPass(olds, news) != [])
      ensures logFile == old(logFile) + Lines(SecondPass(olds, news), clock, start)
      ensures console == old(console) + Lines(SecondPass(olds, news), clock, start)
    {
      changesFound := false;
      var removed: nat := 0;
      var j := 0;
      while j < |olds|
        invariant 0 <= j <= |olds|
        invariant removed == |SecondPass(olds[..j], news)| && changesFound == (removed > 0)
        invariant logFile == old(logFile) + Lines(SecondPass(olds[..j], news), clock, start)
        invariant console == old(console) + Lines(SecondPass(olds[..j], news), clock, start)
      {
        var logged := ReportGone(olds, j, news, clock, start, removed, old(logFile), old(console));
        if logged {
          changesFound := true;
          removed := removed + 1;
        }
        j := j + 1;
      }
      assert olds[..j] == olds;
    }

    /** The second loop's body for the stored entry `olds[j]`, whose removal,
        if it was not scraped again, is the run's `start + removed`-th change:
        the log and the console, which held the lines of the removals among
        `olds[..j]`, then hold those among `olds[..j + 1]`. */
    method ReportGone(olds: Snapshot, j: nat, news: Snapshot, clock: nat -> string, start: nat, removed: nat,
                      ghost log0: seq<string>, ghost out0: seq<string>) returns (logged: bool)
      requires j < |olds| && removed == |SecondPass(olds[..j], news)|
      requires logFile == log0 + Lines(SecondPass(olds[..j], news), clock, start)
      requires console == out0 + Lines(SecondPass(olds[..j], news), clock, start)
      modifies this`logFile, this`console
      ensures logged == !HasKey(news, olds[j].link)
      ensures |SecondPass(olds[..j + 1], news)| == removed + if logged then 1 else 0
      ensures logFile == log0 + Lines(SecondPass(olds[..j + 1], news), clock, start)
      ensures console == out0 + Lines(SecondPass(olds[..j + 1], news), clock, start)
    {
      ghost var log1, out1 := logFile, console;
      logged := false;
      var link, oldData := olds[j].link, olds[j].rec;
      if !HasKey(news, link) {
        var ev := Removed(link, oldData.name, oldData.price);
        LogChange(Message(ev), clock(start + removed));
        LinesOne(ev, clock, start + removed);
        logged := true;
      } else {
        assert log1 + [] == log1 && out1 + [] == out1;
      }
      SecondPassLogged(olds, news, j, clock, start, removed, log0, log1, logFile);
      SecondPassLogged(olds, news, j, clock, start, removed, out0, out1, console);
    }
  }
}
