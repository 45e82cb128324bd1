/** The price normaliser `clean_price`, which exists in identical copies in
    price_tracker.py and dashboard.py: the first match of the regular
    expression `£?([\d,]+)` is searched for, the commas are removed from its
    group and the rest is handed to `float`. */
module Normalise {
  import opened Wrappers
  import opened Text
  import opened Decimal

  /** A Python value given to `clean_price`: a `str`, or anything else
      (`None`, a pandas NaN, a number). */
  datatype PyValue = Str(s: string) | NonStr

  /** What `clean_price` does: returns None, returns a number, or raises
      `ValueError` because `float('')` was called. */
  datatype PriceOutcome = NoPrice | Price(value: nat) | FloatError

  /** The character class `[\d,]`. */
  predicate IsDigitOrComma(c: char) {
    IsDigit(c) || c == ','
  }

  predicate AllDigitOrComma(s: string) {
    forall i :: 0 <= i < |s| ==> IsDigitOrComma(s[i])
  }

  predicate HasDigit(s: string) {
    exists i :: 0 <= i < |s| && IsDigit(s[i])
  }

  /** Length of the longest run of `[\d,]` starting at `j` (the greedy `+`). */
  function RunLength(s: string, j: nat): (n: nat)
    requires j <= |s|
    ensures j + n <= |s|
    ensures forall k :: j <= k < j + n ==> IsDigitOrComma(s[k])
    ensures j + n == |s| || !IsDigitOrComma(s[j + n])
    decreases |s| - j
  {
    if j < |s| && IsDigitOrComma(s[j]) then 1 + RunLength(s, j + 1) else 0
  }

  /** Group 1 of `£?([\d,]+)` when the match is tried at position `i`: the
      optional `£` is taken if the run can follow it, and otherwise given
      back so that the run must start at `i` itself. */
  function MatchAt(s: string, i: nat): (g: Option<string>)
    requires i <= |s|
    ensures g.Some? ==> g.value != [] && AllDigitOrComma(g.value)
  {
    if i + 1 < |s| && s[i] == '£' && IsDigitOrComma(s[i + 1]) then
      Some(s[i + 1..i + 1 + RunLength(s, i + 1)])
    else if i < |s| && IsDigitOrComma(s[i]) then
      Some(s[i..i + RunLength(s, i)])
    else
      None
  }

  /** `re.search`: the leftmost position at or after `i` where the pattern
      matches. */
  function SearchFrom(s: string, i: nat): (g: Option<string>)
    requires i <= |s|
    ensures g.Some? ==> g.value != [] && AllDigitOrComma(g.value)
    decreases |s| - i
  {
    match MatchAt(s, i)
    case Some(g) => Some(g)
    case None => if i < |s| then SearchFrom(s, i + 1) else None
  }

  /** The first index at or after `i` that holds a digit or a comma, or `|s|`. */
  function FirstFrom(s: string, i: nat): (k: nat)
    requires i <= |s|
    ensures i <= k <= |s|
    ensures forall m :: i <= m < k ==> !IsDigitOrComma(s[m])
    ensures k < |s| ==> IsDigitOrComma(s[k])
    decreases |s| - i
  {
    if i == |s| || IsDigitOrComma(s[i]) then i else FirstFrom(s, i + 1)
  }

  /** Reference definition: the first maximal block of digits and commas. */
  function FirstRun(s: string): (g: Option<string>)
    ensures g.None? <==> forall i :: 0 <= i < |s| ==> !IsDigitOrComma(s[i])
    ensures g.Some? ==> g.value != [] && AllDigitOrComma(g.value)
  {
    var j := FirstFrom(s, 0);
    if j == |s| then None else Some(s[j..j + RunLength(s, j)])
  }

  lemma {:induction false} SearchFromFirstRun(s: string, i: nat)
    requires i <= |s|
    ensures SearchFrom(s, i) ==
      (var j := FirstFrom(s, i); if j == |s| then None else Some(s[j..j + RunLength(s, j)]))
    decreases |s| - i
  {
    var j := FirstFrom(s, i);
    if i < j && !(i + 1 < |s| && s[i] == '£' && IsDigitOrComma(s[i + 1])) {
      SearchFromFirstRun(s, i + 1);
    }
  }

  /** The regular-expression search finds exactly the first maximal run of
      digits and commas; the optional `£` never changes the group. */
  lemma SearchIsFirstRun(s: string)
    ensures SearchFrom(s, 0) == FirstRun(s)
  {
    SearchFromFirstRun(s, 0);
  }

  /** `.replace(',', '')`. */
  function RemoveCommas(s: string): (r: string)
    ensures AllDigitOrComma(s) ==> AllDigits(r)
  {
    if s == [] then []
    else if s[0] == ',' then RemoveCommas(s[1..])
    else [s[0]] + RemoveCommas(s[1..])
  }

  /** Removing the commas keeps the other characters, in order: the result
      is empty exactly when there was no digit, is never longer, and a string
      without commas comes back as it was. */
  lemma {:induction false} RemoveCommasFacts(s: string)
    ensures |RemoveCommas(s)| <= |s|
    ensures forall i :: 0 <= i < |RemoveCommas(s)| ==> RemoveCommas(s)[i] != ','
    ensures AllDigitOrComma(s) ==> (RemoveCommas(s) == [] <==> !HasDigit(s))
    ensures (forall i :: 0 <= i < |s| ==> s[i] != ',') ==> RemoveCommas(s) == s
  {
    if s != [] {
      RemoveCommasFacts(s[1..]);
      assert s[0] != ',' && AllDigitOrComma(s) ==> HasDigit(s) by {
        if s[0] != ',' && AllDigitOrComma(s) { assert IsDigit(s[0]); }
      }
      assert HasDigit(s[1..]) ==> HasDigit(s) by {
        if HasDigit(s[1..]) { var k :| 0 <= k < |s[1..]| && IsDigit(s[1..][k]); assert IsDigit(s[k + 1]); }
      }
      assert HasDigit(s) && s[0] == ',' ==> HasDigit(s[1..]) by {
        if HasDigit(s) && s[0] == ',' { var k :| 0 <= k < |s| && IsDigit(s[k]); assert IsDigit(s[1..][k - 1]); }
      }
    }
  }

  /** `float(text)` for a string of digits: the empty string raises. */
  function ToFloat(digits: string): (r: PriceOutcome)
    requires AllDigits(digits)
    ensures r != NoPrice
    ensures r == FloatError <==> digits == []
    ensures r.Price? ==> r.value == ValueOf(digits)
  {
    if digits == [] then FloatError else Price(ValueOf(digits))
  }

  /** `float` reads back every whole number written in decimal. */
  lemma ToFloatShow(n: nat)
    ensures AllDigits(Show(n)) && ToFloat(Show(n)) == Price(n)
  {
    ValueOfShow(n);
  }

  /** `clean_price(price_str)`. */
  function CleanPrice(v: PyValue): PriceOutcome {
    match v
    case NonStr => NoPrice
    case Str(s) =>
      match SearchFrom(s, 0)
      case None => NoPrice
      case Some(g) => ToFloat(RemoveCommas(g))
  }

  /** What `clean_price` promises: no price for a non-string or for text
      without a digit or comma; otherwise the first run of digits and commas
      decides, raising when it holds no digit and giving the value of its
      digits when it does. */
  lemma CleanPriceSpec(v: PyValue)
    ensures v.NonStr? ==> CleanPrice(v) == NoPrice
    ensures v.Str? ==> (CleanPrice(v) == NoPrice <==> forall i :: 0 <= i < |v.s| ==> !IsDigitOrComma(v.s[i]))
    ensures v.Str? && FirstRun(v.s).Some? ==> (CleanPrice(v) == FloatError <==> !HasDigit(FirstRun(v.s).value))
    ensures CleanPrice(v).Price? ==>
      v.Str? && FirstRun(v.s).Some? && CleanPrice(v).value == ValueOf(RemoveCommas(FirstRun(v.s).value))
  {
    if v.Str? {
      SearchIsFirstRun(v.s);
      RemoveCommasFacts(if FirstRun(v.s).Some? then FirstRun(v.s).value else []);
    }
  }

  /** FirstFrom is pinned down by its contract. */
  lemma {:induction false} FirstFromIs(s: string, i: nat, k: nat)
    requires i <= k <= |s|
    requires forall m :: i <= m < k ==> !IsDigitOrComma(s[m])
    requires k < |s| ==> IsDigitOrComma(s[k])
    ensures FirstFrom(s, i) == k
    decreases k - i
  {
    if i < k {
      FirstFromIs(s, i + 1, k);
    }
  }

  /** RunLength is pinned down by its contract. */
  lemma {:induction false} RunLengthIs(s: string, j: nat, n: nat)
    requires j + n <= |s|
    requires forall k :: j <= k < j + n ==> IsDigitOrComma(s[k])
    requires j + n == |s| || !IsDigitOrComma(s[j + n])
    ensures RunLength(s, j) == n
    decreases n
  {
    if n > 0 {
      RunLengthIs(s, j + 1, n - 1);
    }
  }

  /** The first run of `s` is the block `s[j..j+n]` when nothing before `j`
      is a digit or comma and the block is a maximal run. */
  lemma FirstRunIs(s: string, j: nat, n: nat)
    requires 0 < n && j + n <= |s|
    requires forall m :: 0 <= m < j ==> !IsDigitOrComma(s[m])
    requires forall k :: j <= k < j + n ==> IsDigitOrComma(s[k])
    requires j + n == |s| || !IsDigitOrComma(s[j + n])
    ensures FirstRun(s) == Some(s[j..j + n])
  {
    FirstFromIs(s, 0, j);
    RunLengthIs(s, j, n);
  }

  /** What CleanPrice gives once the first run of the text is known. */
  lemma CleanPriceOfRun(s: string, g: string)
    requires FirstRun(s) == Some(g)
    ensures CleanPrice(Str(s)) == if HasDigit(g) then Price(ValueOf(RemoveCommas(g))) else FloatError
  {
    CleanPriceSpec(Str(s));
  }

  /** `n` as the listings show it: decimal digits with a comma before each
      group of three (`1,234`). */
  function Grouped(n: nat): (r: string)
    ensures r != [] && AllDigitOrComma(r) && IsDigit(r[0])
  {
    if n < 1000 then Show(n) else Grouped(n / 1000) + "," + Pad3(n % 1000)
  }

  lemma {:induction false} RemoveCommasAppend(s: string, t: string)
    ensures RemoveCommas(s + t) == RemoveCommas(s) + RemoveCommas(t)
  {
    if s != [] {
      assert (s + t)[0] == s[0] && (s + t)[1..] == s[1..] + t;
      RemoveCommasAppend(s[1..], t);
      if s[0] != ',' {
        assert [s[0]] + (RemoveCommas(s[1..]) + RemoveCommas(t)) == ([s[0]] + RemoveCommas(s[1..])) + RemoveCommas(t);
      }
    } else {
      assert s + t == t;
    }
  }

  /** Dropping the separators of Grouped(n) leaves digits worth `n`. */
  lemma {:induction false} GroupedValue(n: nat)
    ensures AllDigits(RemoveCommas(Grouped(n)))
    ensures ValueOf(RemoveCommas(Grouped(n))) == n
  {
    if n < 1000 {
      RemoveCommasFacts(Show(n));
      ValueOfShow(n);
    } else {
      var hi, lo := Grouped(n / 1000), Pad3(n % 1000);
      RemoveCommasAppend(hi + ",", lo);
      RemoveCommasAppend(hi, ",");
      RemoveCommasFacts(lo);
      assert RemoveCommas(",") == [];
      assert RemoveCommas(Grouped(n)) == RemoveCommas(hi) + lo;
      GroupedValue(n / 1000);
      ValueOfAppend(RemoveCommas(hi), lo);
      Pad3Value(n % 1000);
      assert Pow10(3) == 1000;
    }
  }

  /** Every whole number, written with thousands separators between text
      that holds no digit or comma before it and does not continue the run
      after it, is read back exactly: `"£" + "1,234" + "/week"` gives 1234. */
  lemma CleanPriceGroupedShow(prefix: string, n: nat, suffix: string)
    requires forall i :: 0 <= i < |prefix| ==> !IsDigitOrComma(prefix[i])
    requires suffix == [] || !IsDigitOrComma(suffix[0])
    ensures CleanPrice(Str(prefix + Grouped(n) + suffix)) == Price(n)
  {
    var d := Grouped(n);
    var s := prefix + d + suffix;
    var j := |prefix|;
    forall m | 0 <= m < j ensures !IsDigitOrComma(s[m]) {
      assert s[m] == prefix[m];
    }
    forall k | j <= k < j + |d| ensures IsDigitOrComma(s[k]) {
      assert s[k] == d[k - j];
    }
    assert j + |d| < |s| ==> s[j + |d|] == suffix[0];
    FirstRunIs(s, j, |d|);
    assert s[j..j + |d|] == d;
    assert HasDigit(d);
    CleanPriceOfRun(s, d);
    GroupedValue(n);
  }

  /** The example the price normaliser is meant for: grouping commas and
      the currency sign are dropped. */
  lemma CleanPriceGrouped(text: string)
    requires text == "£1,234/wk"
    ensures CleanPrice(Str(text)) == Price(1234)
  {
    var g := Grouped(1234);
    assert g == "1,234" by {
      assert Show(1) == "1";
      assert Pad3(234) == "234";
    }
    assert text == "£" + g + "/wk";
    CleanPriceGroupedShow("£", 1234, "/wk");
  }

  /** Text without any digit or comma has no price. */
  lemma CleanPriceNoDigits(s: string)
    requires forall i :: 0 <= i < |s| ==> !IsDigitOrComma(s[i])
    ensures CleanPrice(Str(s)) == NoPrice
  {
    CleanPriceSpec(Str(s));
  }

  /** When the first run of digits and commas is a lone comma, `float('')`
      raises. */
  lemma CleanPriceRaises(s: string)
    requires FirstRun(s) == Some(",")
    ensures CleanPrice(Str(s)) == FloatError
  {
    assert !HasDigit(",");
    CleanPriceOfRun(s, ",");
  }

  /** A comma written before the price is such a first run. */
  lemma CleanPriceRaisesExample()
    ensures CleanPrice(Str("Price, £500")) == FloatError
  {
    var c := "Price, £500";
    FirstRunIs(c, 5, 1);
    assert c[5..6] == ",";
    CleanPriceRaises(c);
  }
}
