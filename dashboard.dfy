/** The dashboard's data pipeline: amenity cleaning, dropping the rows whose
    price does not normalise, the sidebar filter and the three metrics. */
module Dashboard {
  import opened Wrappers
  import opened Text
  import opened Normalise

  // ----- Selecting elements of a sequence, with the indices they came from -----

  predicate Increasing(idx: seq<nat>) {
    forall a, b :: 0 <= a < b < |idx| ==> idx[a] < idx[b]
  }

  /** The elements of `xs` that satisfy `p`, in order. */
  function Select<T>(p: T -> bool, xs: seq<T>): seq<T> {
    if xs == [] then []
    else Select(p, xs[..|xs| - 1]) + if p(xs[|xs| - 1]) then [xs[|xs| - 1]] else []
  }

  /** The positions of the elements Select keeps. */
  function SelectedIndices<T>(p: T -> bool, xs: seq<T>): seq<nat> {
    if xs == [] then []
    else SelectedIndices(p, xs[..|xs| - 1]) + if p(xs[|xs| - 1]) then [|xs| - 1] else []
  }

  /** Select keeps exactly the elements satisfying `p`, in their original
      order: its k-th element sits at the k-th selected position, the
      positions increase, and a position is selected iff `p` holds there. */
  lemma SelectFacts<T>(p: T -> bool, xs: seq<T>)
    ensures |Select(p, xs)| == |SelectedIndices(p, xs)| <= |xs|
    ensures Increasing(SelectedIndices(p, xs))
    ensures forall k :: 0 <= k < |SelectedIndices(p, xs)| ==>
      SelectedIndices(p, xs)[k] < |xs| && Select(p, xs)[k] == xs[SelectedIndices(p, xs)[k]]
    ensures forall i :: 0 <= i < |xs| ==> (p(xs[i]) <==> i in SelectedIndices(p, xs))
  {
    SelectAt(p, xs);
    SelectIncreasing(p, xs);
    SelectIff(p, xs);
  }

  lemma {:induction false} SelectAt<T>(p: T -> bool, xs: seq<T>)
    ensures |Select(p, xs)| == |SelectedIndices(p, xs)| <= |xs|
    ensures forall k :: 0 <= k < |SelectedIndices(p, xs)| ==>
      SelectedIndices(p, xs)[k] < |xs| && Select(p, xs)[k] == xs[SelectedIndices(p, xs)[k]]
  {
    if xs != [] {
      var init := xs[..|xs| - 1];
      SelectAt(p, init);
      var s, idx := Select(p, init), SelectedIndices(p, init);
      forall k | 0 <= k < |idx| ensures idx[k] < |init| && s[k] == xs[idx[k]] {
        assert init[idx[k]] == xs[idx[k]];
      }
    }
  }

  lemma {:induction false} SelectBound<T>(p: T -> bool, xs: seq<T>)
    ensures forall k :: 0 <= k < |SelectedIndices(p, xs)| ==> SelectedIndices(p, xs)[k] < |xs|
  {
    if xs != [] {
      SelectBound(p, xs[..|xs| - 1]);
    }
  }

  lemma {:induction false} SelectIncreasing<T>(p: T -> bool, xs: seq<T>)
    ensures Increasing(SelectedIndices(p, xs))
  {
    if xs != [] {
      var init := xs[..|xs| - 1];
      SelectIncreasing(p, init);
      SelectBound(p, init);
    }
  }

  lemma {:induction false} SelectIff<T>(p: T -> bool, xs: seq<T>)
    ensures forall i :: 0 <= i < |xs| ==> (p(xs[i]) <==> i in SelectedIndices(p, xs))
  {
    if xs != [] {
      var init := xs[..|xs| - 1];
      SelectIff(p, init);
      SelectBound(p, init);
      var idx := SelectedIndices(p, init);
      forall i | 0 <= i < |init| ensures xs[i] == init[i] { }
      assert |xs| - 1 !in idx;
    }
  }

  /** Every element Select keeps satisfies `p`. */
  lemma SelectSound<T>(p: T -> bool, xs: seq<T>)
    ensures forall k :: 0 <= k < |Select(p, xs)| ==> p(Select(p, xs)[k])
  {
    SelectFacts(p, xs);
    forall k | 0 <= k < |Select(p, xs)| ensures p(Select(p, xs)[k]) {
      var i := SelectedIndices(p, xs)[k];
      assert i in SelectedIndices(p, xs);
    }
  }

  // ----- Amenities -----

  /** `^[^\w\s£]`: a character the leading-symbol pattern removes. */
  predicate IsSymbol(c: char) {
    !IsWordChar(c) && !IsSpace(c) && c != '£'
  }

  /** `re.sub(r'^[^\w\s£]+', '', s)`: the leading run of symbols is removed. */
  function DropSymbols(s: string): string {
    if s != [] && IsSymbol(s[0]) then DropSymbols(s[1..]) else s
  }

  /** DropSymbols removes the longest run of symbols at the front, and
      nothing else. */
  lemma {:induction false} DropSymbolsFacts(s: string)
    ensures |DropSymbols(s)| <= |s| && DropSymbols(s) == s[|s| - |DropSymbols(s)|..]
    ensures forall i :: 0 <= i < |s| - |DropSymbols(s)| ==> IsSymbol(s[i])
    ensures DropSymbols(s) == [] || !IsSymbol(DropSymbols(s)[0])
  {
    if s != [] && IsSymbol(s[0]) {
      DropSymbolsFacts(s[1..]);
      var r := DropSymbols(s[1..]);
      assert s[1..][|s| - 1 - |r|..] == s[|s| - |r|..];
      forall i | 1 <= i < |s| - |r| ensures IsSymbol(s[i]) {
        assert s[i] == s[1..][i - 1];
      }
    }
  }

  /** One amenity as `clean_amenities` rewrites it. */
  function CleanLabel(s: string): string {
    Strip(DropSymbols(s))
  }

  /** The cleaned label neither starts with a symbol after its whitespace is
      gone, nor has whitespace at its ends, and it is a block of the input. */
  lemma CleanLabelFacts(s: string)
    ensures NoSpaceAtEnds(CleanLabel(s))
    ensures exists i: nat :: InfixAt(CleanLabel(s), s, i)
  {
    var d := DropSymbols(s);
    var r := Strip(d);
    DropSymbolsFacts(s);
    StripFacts(d);
    var i: nat :| InfixAt(r, d, i);
    var off := |s| - |d|;
    assert s[off..][i..i + |r|] == s[off + i..off + i + |r|];
    assert InfixAt(r, s, off + i);
  }

  /** A cell of the `amenities` column: a list of strings, or any other
      value, which `clean_amenities` returns as it is. */
  datatype AmenityCell = AmenityList(items: seq<string>) | NotAList(value: PyValue)

  /** The list `clean_amenities` builds from `items`. */
  function CleanedAmenities(items: seq<string>): seq<string> {
    if items == [] then []
    else
      var text := CleanLabel(items[|items| - 1]);
      CleanedAmenities(items[..|items| - 1]) + if text != [] then [text] else []
  }

  predicate LabelSurvives(s: string) {
    CleanLabel(s) != []
  }

  /** The cleaned list holds, in order, the cleaned labels of exactly the
      items whose label is not empty: its k-th label comes from the k-th
      surviving item. */
  lemma {:induction false} CleanedAmenitiesFacts(items: seq<string>)
    ensures |CleanedAmenities(items)| == |SelectedIndices(LabelSurvives, items)| <= |items|
    ensures forall k :: 0 <= k < |CleanedAmenities(items)| ==>
      SelectedIndices(LabelSurvives, items)[k] < |items| &&
      CleanedAmenities(items)[k] == CleanLabel(items[SelectedIndices(LabelSurvives, items)[k]])
    ensures forall k :: 0 <= k < |CleanedAmenities(items)| ==> CleanedAmenities(items)[k] != []
  {
    if items != [] {
      var init := items[..|items| - 1];
      CleanedAmenitiesFacts(init);
      SelectBound(LabelSurvives, init);
      var text := CleanLabel(items[|items| - 1]);
      var idx := SelectedIndices(LabelSurvives, init);
      var c := CleanedAmenities(init);
      assert LabelSurvives(items[|items| - 1]) == (text != []);
      var tail := if text != [] then [text] else [];
      var itail: seq<nat> := if text != [] then [|items| - 1] else [];
      assert CleanedAmenities(items) == c + tail;
      assert SelectedIndices(LabelSurvives, items) == idx + itail;
      forall k | 0 <= k < |c| ensures init[idx[k]] == items[idx[k]] { }
    }
  }

  /** `clean_amenities`: non-lists are returned unchanged, and a list is
      rebuilt from its surviving cleaned labels. */
  function CleanCell(cell: AmenityCell): AmenityCell {
    match cell
    case NotAList(_) => cell
    case AmenityList(items) => AmenityList(CleanedAmenities(items))
  }

  /** The loop of `clean_amenities`. */
  method CleanAmenities(cell: AmenityCell) returns (r: AmenityCell)
    ensures cell.NotAList? ==> r == cell
    ensures cell.AmenityList? ==> r == AmenityList(CleanedAmenities(cell.items))
  {
    if !cell.AmenityList? {
      return cell;
    }
    var items := cell.items;
    var cleaned: seq<string> := [];
    var i := 0;
    while i < |items|
      invariant 0 <= i <= |items|
      invariant cleaned == CleanedAmenities(items[..i])
    {
      assert items[..i + 1][..i] == items[..i];
      var text := CleanLabel(items[i]);
      if text != [] {
        cleaned := cleaned + [text];
      }
      i := i + 1;
    }
    assert items[..i] == items;
    r := AmenityList(cleaned);
  }

  /** The leading-symbol pattern removes exactly a leading block of
      symbols that is not followed by another symbol. */
  lemma {:induction false} DropSymbolsPrefix(icon: string, rest: string)
    requires forall i :: 0 <= i < |icon| ==> IsSymbol(icon[i])
    requires rest == [] || !IsSymbol(rest[0])
    ensures DropSymbols(icon + rest) == rest
  {
    if icon != [] {
      assert (icon + rest)[1..] == icon[1..] + rest;
      DropSymbolsPrefix(icon[1..], rest);
    } else {
      assert icon + rest == rest;
    }
  }

  /** A label written as leading icon symbols, whitespace, the text and
      more whitespace is cleaned to the text alone. */
  lemma CleanLabelIcon(icon: string, before: string, text: string, after: string)
    requires forall i :: 0 <= i < |icon| ==> IsSymbol(icon[i])
    requires forall i :: 0 <= i < |before| ==> IsSpace(before[i])
    requires forall i :: 0 <= i < |after| ==> IsSpace(after[i])
    requires text != [] && NoSpaceAtEnds(text) && !IsSymbol(text[0])
    ensures CleanLabel(icon + before + text + after) == text
  {
    var rest := before + text + after;
    assert icon + before + text + after == icon + rest;
    assert rest == [] || !IsSymbol(rest[0]) by {
      if before != [] { assert rest[0] == before[0]; } else { assert rest[0] == text[0]; }
    }
    DropSymbolsPrefix(icon, rest);
    assert rest == before + (text + after);
    assert (text + after)[0] == text[0];
    TrimStartPrefix(before, text + after);
    TrimEndSuffix(text, after);
  }

  /** The bed icon before "Furnished" and the spaces around it are removed. */
  lemma CleanLabelIconExample()
    ensures CleanLabel("\U{1F6CF} Furnished ") == "Furnished"
  {
    assert "\U{1F6CF} Furnished " == "\U{1F6CF}" + " " + "Furnished" + " ";
    CleanLabelIcon("\U{1F6CF}", " ", "Furnished", " ");
  }

  /** Whitespace before a symbol protects it the first time, and cleaning
      again removes it: cleaning is not idempotent. */
  lemma CleanLabelNotIdempotent(text: string)
    requires text == " \U{1F6CF}x"
    ensures CleanLabel(text) == "\U{1F6CF}x"
    ensures CleanLabel(CleanLabel(text)) == "x"
  {
    assert !IsSymbol(text[0]);
    assert DropSymbols(text) == text;
    assert TrimStart(text) == text[1..];
    assert TrimEnd(text[1..]) == text[1..];
    var once := text[1..];
    assert IsSymbol(once[0]) && !IsSymbol(once[1]);
    assert DropSymbols(once) == once[1..];
    assert TrimStart(once[1..]) == once[1..];
  }

  // ----- Rows -----

  /** One listing of `uhomes_data.json` as a DataFrame row; a missing or
      non-string field is NonStr. */
  datatype Row = Row(name: PyValue, address: PyValue, pricePerWeek: PyValue, amenities: AmenityCell, link: PyValue)

  /** A row of `df_clean`: the row with its amenities cleaned, and its
      `price_numeric`. */
  datatype PricedRow = PricedRow(row: Row, price: nat)

  /** Why the script stops before showing the filters. */
  datatype DashError =
    | PriceNotNumeric  // `clean_price` raised on some row (`float('')`)
    | NoPricedRows     // no row has a price: `int()` of the minimum of an empty
                       // price column raises; with no rows at all the script
                       // already stops at line 64, since the frame has no
                       // `price_per_week` column (KeyError)

  predicate HasPrice(r: Row) {
    CleanPrice(r.pricePerWeek).Price?
  }

  predicate PriceRaises(r: Row) {
    CleanPrice(r.pricePerWeek).FloatError?
  }

  function Clean(r: Row): PricedRow
    requires HasPrice(r)
  {
    PricedRow(r.(amenities := CleanCell(r.amenities)), CleanPrice(r.pricePerWeek).value)
  }

  /** `df.dropna(subset=['price_numeric'])` after the two `apply` calls. */
  function Priced(rows: seq<Row>): seq<PricedRow> {
    if rows == [] then []
    else Priced(rows[..|rows| - 1]) + if HasPrice(rows[|rows| - 1]) then [Clean(rows[|rows| - 1])] else []
  }

  /** The cleaned rows are, in order, the rows with a price, and each
      carries its row's normalised price. */
  lemma {:induction false} PricedFacts(rows: seq<Row>)
    ensures |Priced(rows)| == |SelectedIndices(HasPrice, rows)| <= |rows|
    ensures forall k :: 0 <= k < |Priced(rows)| ==>
      SelectedIndices(HasPrice, rows)[k] < |rows| &&
      HasPrice(rows[SelectedIndices(HasPrice, rows)[k]]) &&
      Priced(rows)[k] == Clean(rows[SelectedIndices(HasPrice, rows)[k]])
  {
    SelectFacts(HasPrice, rows);
    if rows != [] {
      var init := rows[..|rows| - 1];
      PricedFacts(init);
      SelectFacts(HasPrice, init);
      var idx := SelectedIndices(HasPrice, init);
      forall k | 0 <= k < |idx| ensures init[idx[k]] == rows[idx[k]] { }
    }
  }

  predicate AnyRaises(rows: seq<Row>) {
    exists i :: 0 <= i < |rows| && PriceRaises(rows[i])
  }

  /** Lines 63-67 and the `int(...min())` of line 72: the cleaned rows, or
      the error that stops the script. */
  function CleanRows(rows: seq<Row>): Result<seq<PricedRow>, DashError> {
    if AnyRaises(rows) then Failure(PriceNotNumeric)
    else if Priced(rows) == [] then Failure(NoPricedRows)
    else Success(Priced(rows))
  }

  /** The smallest price of the cleaned rows. */
  function MinPrice(rows: seq<PricedRow>): (m: nat)
    requires rows != []
    ensures exists k :: 0 <= k < |rows| && rows[k].price == m
    ensures forall k :: 0 <= k < |rows| ==> m <= rows[k].price
  {
    if |rows| == 1 then rows[0].price
    else
      var m := MinPrice(rows[..|rows| - 1]);
      assert forall k :: 0 <= k < |rows| - 1 ==> rows[..|rows| - 1][k] == rows[k];
      if rows[|rows| - 1].price < m then rows[|rows| - 1].price else m
  }

  /** The largest price of the cleaned rows. */
  function MaxPrice(rows: seq<PricedRow>): (m: nat)
    requires rows != []
    ensures exists k :: 0 <= k < |rows| && rows[k].price == m
    ensures forall k :: 0 <= k < |rows| ==> rows[k].price <= m
  {
    if |rows| == 1 then rows[0].price
    else
      var m := MaxPrice(rows[..|rows| - 1]);
      assert forall k :: 0 <= k < |rows| - 1 ==> rows[..|rows| - 1][k] == rows[k];
      if rows[|rows| - 1].price > m then rows[|rows| - 1].price else m
  }

  // ----- Filter -----

  /** `Series.str.contains(term, case=False, na=False)` for one cell. */
  predicate Matches(v: PyValue, term: string) {
    v.Str? && ContainsIgnoreCase(v.s, term)
  }

  /** The row mask of lines 82-89. */
  predicate Keep(r: PricedRow, term: string, lo: int, hi: int) {
    lo <= r.price <= hi && (Matches(r.row.name, term) || Matches(r.row.address, term))
  }

  function Filter(rows: seq<PricedRow>, term: string, lo: int, hi: int): seq<PricedRow> {
    Select((r: PricedRow) => Keep(r, term, lo, hi), rows)
  }

  /** The filtered rows are, in order, exactly the cleaned rows inside the
      inclusive price range whose name or address contains the term,
      ignoring case. */
  lemma FilterFacts(rows: seq<PricedRow>, term: string, lo: int, hi: int)
    ensures |Filter(rows, term, lo, hi)| <= |rows|
    ensures forall k :: 0 <= k < |Filter(rows, term, lo, hi)| ==>
      var r := Filter(rows, term, lo, hi)[k];
      lo <= r.price <= hi && (Matches(r.row.name, term) || Matches(r.row.address, term))
    ensures forall i :: 0 <= i < |rows| && Keep(rows[i], term, lo, hi) ==> rows[i] in Filter(rows, term, lo, hi)
  {
    var p := (r: PricedRow) => Keep(r, term, lo, hi);
    SelectFacts(p, rows);
    SelectSound(p, rows);
    forall i | 0 <= i < |rows| && Keep(rows[i], term, lo, hi) ensures rows[i] in Filter(rows, term, lo, hi) {
      assert p(rows[i]);
      var idx := SelectedIndices(p, rows);
      var k :| 0 <= k < |idx| && idx[k] == i;
      assert Select(p, rows)[k] == rows[i];
    }
  }

  /** A missing name and a missing address never match, whatever the term. */
  lemma MissingNeverMatches(r: PricedRow, term: string, lo: int, hi: int)
    requires !r.row.name.Str? && !r.row.address.Str?
    ensures !Keep(r, term, lo, hi)
  {
  }

  /** The empty search term matches every string. */
  lemma EmptyTermMatches(v: PyValue)
    ensures Matches(v, "") <==> v.Str?
  {
    if v.Str? {
      EmptyNeedle(LowerString(v.s));
    }
  }

  // ----- Metrics -----

  /** The third metric: the mean weekly price, kept as the exact ratio
      `sum / count`, or "N/A". */
  datatype Average = NotAvailable | Mean(sum: nat, count: nat)

  datatype Metrics = Metrics(total: nat, displayed: nat, average: Average)

  function SumPrices(rows: seq<PricedRow>): nat {
    if rows == [] then 0 else SumPrices(rows[..|rows| - 1]) + rows[|rows| - 1].price
  }

  function ComputeMetrics(raw: seq<Row>, shown: seq<PricedRow>): Metrics {
    Metrics(|raw|, |shown|, if shown == [] then NotAvailable else Mean(SumPrices(shown), |shown|))
  }

  /** When every shown price lies in [lo, hi], so does their mean. */
  lemma {:induction false} SumBounds(rows: seq<PricedRow>, lo: int, hi: int)
    requires forall k :: 0 <= k < |rows| ==> lo <= rows[k].price <= hi
    ensures lo * |rows| <= SumPrices(rows) <= hi * |rows|
  {
    if rows != [] {
      var init := rows[..|rows| - 1];
      forall k | 0 <= k < |init| ensures lo <= init[k].price <= hi {
        assert init[k] == rows[k];
      }
      SumBounds(init, lo, hi);
      var n, x := |init|, rows[|rows| - 1].price;
      assert SumPrices(rows) == SumPrices(init) + x;
      assert lo * (n + 1) == lo * n + lo;
      assert hi * (n + 1) == hi * n + hi;
    }
  }

  // ----- The whole page -----

  /** What the page shows: the filtered rows and the metrics, for the search
      term and a slider position (None is the slider's default, the full
      range of cleaned prices). */
  datatype View = View(shown: seq<PricedRow>, metrics: Metrics)

  function Display(raw: seq<Row>, term: string, slider: Option<(int, int)>): Result<View, DashError> {
    match CleanRows(raw)
    case Failure(e) => Failure(e)
    case Success(clean) =>
      var lo := if slider.Some? then slider.value.0 else MinPrice(clean);
      var hi := if slider.Some? then slider.value.1 else MaxPrice(clean);
      var shown := Filter(clean, term, lo, hi);
      Success(View(shown, ComputeMetrics(raw, shown)))
  }

  /** The script stops exactly when some price raises or no row has a
      price; otherwise the metrics count every scraped row, display the
      filtered ones, never more than were scraped, and show "N/A" exactly
      when nothing is displayed. */
  lemma DisplayFacts(raw: seq<Row>, term: string, slider: Option<(int, int)>)
    ensures Display(raw, term, slider).Failure? <==>
      AnyRaises(raw) || forall i :: 0 <= i < |raw| ==> !HasPrice(raw[i])
    ensures AnyRaises(raw) ==> Display(raw, term, slider) == Failure(PriceNotNumeric)
    ensures Display(raw, term, slider).Success? ==>
      var v := Display(raw, term, slider).value;
      v.metrics.total == |raw| && v.metrics.displayed == |v.shown| <= v.metrics.total &&
      (v.metrics.average.NotAvailable? <==> v.shown == [])
  {
    PricedFacts(raw);
    SelectFacts(HasPrice, raw);
    if Priced(raw) != [] {
      var i := SelectedIndices(HasPrice, raw)[0];
      assert i in SelectedIndices(HasPrice, raw);
    }
    if !AnyRaises(raw) && Priced(raw) != [] {
      var clean := Priced(raw);
      var lo := if slider.Some? then slider.value.0 else MinPrice(clean);
      var hi := if slider.Some? then slider.value.1 else MaxPrice(clean);
      FilterFacts(clean, term, lo, hi);
    }
  }

  /** The average shown lies within the chosen price range. */
  lemma DisplayAverageInRange(raw: seq<Row>, term: string, lo: int, hi: int)
    requires Display(raw, term, Some((lo, hi))).Success?
    requires Display(raw, term, Some((lo, hi))).value.metrics.average.Mean?
    ensures var a := Display(raw, term, Some((lo, hi))).value.metrics.average;
      lo * a.count <= a.sum <= hi * a.count
  {
    var shown := Filter(CleanRows(raw).value, term, lo, hi);
    FilterFacts(CleanRows(raw).value, term, lo, hi);
    SumBounds(shown, lo, hi);
  }

  /** With the slider left at its default and an empty search term, every
      cleaned row with a name or an address is displayed, and no other. */
  lemma DefaultViewKeepsNamed(raw: seq<Row>)
    requires CleanRows(raw).Success?
    ensures var clean := CleanRows(raw).value;
      Display(raw, "", None).value.shown ==
      Select((r: PricedRow) => r.row.name.Str? || r.row.address.Str?, clean)
  {
    var clean := CleanRows(raw).value;
    var lo, hi := MinPrice(clean), MaxPrice(clean);
    var p := (r: PricedRow) => Keep(r, "", lo, hi);
    var q := (r: PricedRow) => r.row.name.Str? || r.row.address.Str?;
    forall r | r in clean ensures p(r) == q(r) {
      EmptyTermMatches(r.row.name);
      EmptyTermMatches(r.row.address);
    }
    SelectSame(p, q, clean);
  }

  /** Two predicates that agree on every element select the same elements. */
  lemma {:induction false} SelectSame<T>(p: T -> bool, q: T -> bool, xs: seq<T>)
    requires forall x :: x in xs ==> p(x) == q(x)
    ensures Select(p, xs) == Select(q, xs)
  {
    if xs != [] {
      var init := xs[..|xs| - 1];
      assert forall x :: x in init ==> x in xs;
      SelectSame(p, q, init);
      assert xs[|xs| - 1] in xs;
    }
  }
}
