# uHomes price tracker and dashboard, modelled in Dafny

The system watches a student-accommodation listings page. It has two programs.

**The tracker** (`price_tracker.py`). Each run does the following:
- It scrapes every listing and builds a snapshot: a dict from the listing's canonical link to `{name, price}`. A site-relative `href` (one starting with `/`) gets the site origin in front of it, and any other `href` is kept as it is.
- It loads the previous snapshot from `uhomes_prices.json`.
- It compares the two and logs DISCOUNT, PRICE UP, NEW LISTING and REMOVED lines to `discounts.log` and to the console.
- It saves the new snapshot in place of the old one.

**The dashboard** (`dashboard.py`):
- It cleans the scraped data set: it normalises the prices, cleans the amenity labels and drops the rows without a price.
- It filters the rows by a search term and a price range.
- It shows three metrics.

Both programs use the same price normaliser, `clean_price`. The model is split into these modules:

- `Text` (`text.dfy`): the character classes, `str.strip`, case folding and substring search the core relies on.
- `Decimal` (`decimal.dfy`): decimal digit strings and their values.
- `Normalise` (`normalise.dfy`): `clean_price`, with its regular expression `£?([\d,]+)` written out as a leftmost greedy search. It is proved to pick the first maximal run of digits and commas. Its outcome is no price, a number, or the `ValueError` raised by `float('')`.
- `Listings` (`listings.dfy`): records and snapshots. A Python dict is a sequence of (link, record) entries with distinct links, in insertion order. Assigning to a dict key is `Put`, and building a dict from pairs (which is what `json.load` does) is `FromPairs`. The module also holds the rule that turns one scraped listing into a snapshot entry, and the scraping loop as the method `CollectListings`.
- `Comparison` (`comparison.dfy`): the two passes of `track_prices` as functions from the two snapshots to the sequence of change events. A per-link reference definition (`Expected`) is proved to agree with them.
- `Tracker` (`tracker.dfy`): the class `PriceTracker`, whose fields are the price file, the log file and the console. Its methods are `load_old_prices`, `save_prices`, `log_change` and `track_prices` with its two loops. Each method is proved against the functions above.
- `Dashboard` (`dashboard.dfy`):
  - `clean_amenities`, as a loop (the method `CleanAmenities`) proved against a function.
  - The price column and `dropna`.
  - The sidebar filter, and the three metrics with the range of the average.
  - The whole page as a function from the data set and the widget values to the view, or to the error that stops the script.

Some behaviours of the code deserve a note, because a reader could expect otherwise. The model follows the code in each case:

- `clean_price` can raise. It calls `float` on the first run of digits and commas once the commas are removed. A run made only of commas (`"Price, £500"`) leaves `float('')`, which raises `ValueError`. The model keeps that outcome as `FloatError`:
  - In the tracker, the listing's `try` block absorbs it and the listing is dropped.
  - In the dashboard, nothing catches it, and the page stops (`PriceNotNumeric`).
- `load_old_prices` catches only `json.JSONDecodeError` (`price_tracker.py:37`). Two kinds of unusable history still stop the run instead of being treated as empty:
  - A file that is not valid UTF-8 raises `UnicodeDecodeError` at `price_tracker.py:36`.
  - Valid JSON that is not an object (`[]`, `null`) loads without error, and then `old_prices.get` raises `AttributeError` at `price_tracker.py:128`.

  The model does not cover these; see "Left out".
- `save_prices` is not atomic. It opens the price file for writing and dumps into it, so a failure partway through leaves a partial file. The model replaces the file's content in one step and says nothing about such a failure.
- Log stamps use `%Y-%m-%d %H:%M:%S`. The model takes the stamp from a clock parameter, so it does not depend on the format.

## Model

| member | source | states |
|---|---|---|
| Normalise.RunLength | price_tracker.py:27 | the greedy `[\d,]+` stops exactly at the first character that is not a digit or a comma |
| Normalise.MatchAt | price_tracker.py:27 | a match tried at one position yields a non-empty group of digits and commas |
| Normalise.SearchFrom | price_tracker.py:27 | `re.search` yields a non-empty group of digits and commas when it matches |
| Normalise.FirstRun | price_tracker.py:27 | the reference first run is absent exactly when the text holds no digit or comma |
| Normalise.SearchIsFirstRun | price_tracker.py:27 | the leftmost match of `£?([\d,]+)` has as its group exactly the first maximal run of digits and commas, so the optional `£` never changes the group |
| Normalise.RemoveCommas | price_tracker.py:28 | removing the commas from a run of digits and commas leaves only digits |
| Normalise.RemoveCommasFacts | price_tracker.py:28 | `.replace(',', '')` never lengthens the text, leaves no comma, leaves a run empty exactly when it had no digit, and keeps comma-free text unchanged |
| Normalise.ToFloatShow | price_tracker.py:28 | `float` reads back every whole number written in decimal digits |
| Normalise.CleanPriceSpec | price_tracker.py:23-28 | a non-string gives no price; a string gives no price exactly when it has no digit or comma; otherwise it raises exactly when its first run has no digit, and its price is the value of that run's digits |
| Normalise.CleanPriceOfRun | price_tracker.py:27-28 | once the first run is known, the outcome is its comma-free value, or the error when it has no digit |
| Normalise.CleanPriceGroupedShow | price_tracker.py:23-28 | every whole number written with thousands separators, between text that does not extend the run, is read back exactly |
| Normalise.CleanPriceGrouped | price_tracker.py:27-28 | `"£1,234/wk"` normalises to 1234 |
| Normalise.CleanPriceNoDigits | dashboard.py:30-37 | every text without digits or commas has no price |
| Normalise.CleanPriceRaises | dashboard.py:34-36 | every text whose first run of digits and commas is a lone comma makes `float('')` raise |
| Normalise.CleanPriceRaisesExample | dashboard.py:34-36 | example: `"Price, £500"` raises |
| Listings.LookupFacts | price_tracker.py:128 | `d.get(k)` finds a record exactly when `k in d`, and in a dict it is the record stored under `k` |
| Listings.PutFacts | price_tracker.py:101 | dict assignment adds the key at the end or updates it in place, maps the key to the new record, leaves every other key as it was, and keeps the keys distinct |
| Listings.FromPairsFacts | price_tracker.py:36 | a dict built from key/record pairs has distinct keys, and exactly the keys of the pairs |
| Listings.FromPairsLookup | price_tracker.py:36 | each key of a dict built from pairs holds the record of the key's last pair |
| Listings.FromPairsDistinct | price_tracker.py:36 | pairs with distinct keys come back unchanged and in order |
| Listings.FullLinkFacts | price_tracker.py:100 | the stored link ends with the `href` it came from, is never site-relative, starts with the site origin when the `href` was site-relative, and is its own canonical form, so a stored link is a stable key across runs |
| Listings.BuildEntryRule | price_tracker.py:93-104 | a listing yields an entry exactly when it was read, its link and name are non-empty and its price text normalises to a number; the entry has the canonical link, the stripped name and that number; the name has no whitespace at its ends, the link is canonical and not site-relative, and the price is the value of the digits of the first run of digits and commas in the price text, which holds a digit |
| Listings.AcceptedMembers | price_tracker.py:92-104 | the loop stores an entry exactly when some listing produced it |
| Listings.CollectListings | price_tracker.py:92-104 | the scraping loop returns the dict built from the accepted entries in listing order |
| Listings.CollectLookup | price_tracker.py:99-101 | the scraped snapshot has distinct links; each link holds the record of the last listing that produced it, and is present exactly when some listing produced it |
| Comparison.CompareAtMostOne | price_tracker.py:127-144 | one scraped entry produces at most one log line |
| Comparison.CompareSilent | price_tracker.py:132-140 | a scraped entry logs nothing exactly when it was stored at the same price |
| Comparison.FirstPassPerKey | price_tracker.py:127-144 | the first loop's events about a link are those of the scraped entry for that link |
| Comparison.SecondPassPerKey | price_tracker.py:147-150 | the second loop's only event about a link is its removal, when it was stored and not scraped again |
| Comparison.ReconcilePerKey | price_tracker.py:127-150 | for every link, a run reports exactly one of new, discount, price up or removed, or nothing, as the reference `Expected` decides from the two snapshots |
| Comparison.ReconcileNonEmpty | price_tracker.py:126-150 | a run reports something exactly when one of its two loops does |
| Comparison.ReconcileSelf | price_tracker.py:127-150 | a snapshot compared with itself reports nothing |
| Comparison.FirstPassUnchanged | price_tracker.py:127-144 | when every scraped entry was stored at its price, the first loop logs nothing |
| Comparison.SecondPassKept | price_tracker.py:147-150 | when every stored link was scraped again, the second loop logs nothing |
| Comparison.FirstPassEmpty | price_tracker.py:127-144 | the first loop logs nothing only when every scraped entry was stored at its price |
| Comparison.SecondPassEmpty | price_tracker.py:147-150 | the second loop logs nothing only when every stored link was scraped again |
| Comparison.ReconcileEmptyIff | price_tracker.py:152-153 | the no-change notice is printed exactly when every scraped listing was stored at its price and every stored listing was scraped again |
| Comparison.ReconcileFromEmpty | price_tracker.py:127-150 | against an empty history, every scraped listing is reported new, in scrape order |
| Comparison.ReconcileToEmpty | price_tracker.py:147-150 | against an empty scrape, every stored listing would be reported removed, in file order |
| Comparison.FirstPassShape | price_tracker.py:127-144 | the first loop logs no removal, at most one line per scraped entry, and only about scraped links |
| Comparison.SecondPassShape | price_tracker.py:147-150 | the second loop logs only removals, at most one per stored entry, each about a stored link missing from the scrape |
| Comparison.ReconcileOrder | price_tracker.py:127-150 | every removal is logged after every new listing and price change, and a run logs at most one line per entry of either snapshot |
| Tracker.LoadFacts | price_tracker.py:31-40 | a missing or corrupt file loads as the empty dict; a stored file loads as a dict whose links hold their last record; a saved dict loads back unchanged |
| Tracker.MoneyValue | price_tracker.py:135 | a price in a log line is `£`, the digits of its value and `.0` |
| Tracker.MoneyInjective | price_tracker.py:135-149 | distinct prices are written differently in the log |
| Tracker.MessageShape | price_tracker.py:135-149 | each log message opens with the word of its kind of change and ends with ` \| Link: ` and the link |
| Tracker.LinesAppend | price_tracker.py:49-55 | log lines appended one after another keep their order, and the stamps continue in sequence |
| Tracker.ReconcileLogged | price_tracker.py:127-150 | the lines of the first loop followed by those of the second are the lines of the whole run |
| Tracker.RerunLogsNothing | price_tracker.py:155-156 | a second run over the same scrape logs nothing, because the first run saved exactly what it scraped |
| Tracker.PriceTracker.LoadOldPrices | price_tracker.py:31-40 | returns the loaded dict, and prints the warning exactly when the file is corrupt |
| Tracker.PriceTracker.SavePrices | price_tracker.py:43-46 | the price file afterwards holds exactly the new dict |
| Tracker.PriceTracker.LogChange | price_tracker.py:49-55 | one line `[stamp] message` is printed and appended to the log, and earlier lines are untouched |
| Tracker.PriceTracker.TrackPrices | price_tracker.py:116-157 | an empty scrape aborts without touching the price file or the log; otherwise the log gains the lines of every change in order, the console shows the same lines between the fixed messages plus the no-change notice exactly when there was no change, and the price file holds the scraped dict |
| Tracker.PriceTracker.LogChanges | price_tracker.py:125-150 | the two loops log the run's changes in order, and the flag is set exactly when there was one |
| Tracker.PriceTracker.LogFirstPass | price_tracker.py:127-144 | the first loop logs the first pass's events in order and counts them |
| Tracker.PriceTracker.CompareNext | price_tracker.py:127-144 | one iteration extends the logged lines of the scraped prefix by one entry |
| Tracker.PriceTracker.CompareEntry | price_tracker.py:128-144 | one scraped entry logs its discount, price rise or new listing, or nothing, and reports whether it logged |
| Tracker.PriceTracker.LogSecondPass | price_tracker.py:147-150 | the second loop logs the removals in file order, stamped on from the first loop's count |
| Tracker.PriceTracker.ReportGone | price_tracker.py:147-150 | one stored entry is logged as removed exactly when its link was not scraped |
| Dashboard.SelectFacts | dashboard.py:82-89 | a boolean mask keeps, in order, exactly the rows it holds for |
| Dashboard.DropSymbolsFacts | dashboard.py:48 | `re.sub(r'^[^\w\s£]+', '', s)` removes the longest leading run of symbols and nothing else |
| Dashboard.CleanLabelFacts | dashboard.py:48 | a cleaned label has no whitespace at its ends and is a block of the original text |
| Dashboard.CleanedAmenitiesFacts | dashboard.py:44-51 | the cleaned list holds, in order, the non-empty cleaned labels of exactly the items whose label survives |
| Dashboard.CleanAmenities | dashboard.py:40-51 | a non-list is returned unchanged, and a list is rebuilt as the cleaned list |
| Dashboard.CleanLabelIcon | dashboard.py:46-48 | every amenity written as leading symbols, whitespace, a text that starts with no symbol and has no whitespace at its ends, then more whitespace, is cleaned to that text alone |
| Dashboard.CleanLabelIconExample | dashboard.py:46-48 | example: `"🛏 Furnished "` is cleaned to `"Furnished"` |
| Dashboard.CleanLabelNotIdempotent | dashboard.py:48 | a symbol behind leading whitespace survives one cleaning but not a second, so cleaning is not idempotent |
| Dashboard.PricedFacts | dashboard.py:63-67 | the cleaned rows are, in order, exactly the rows with a price, each carrying its normalised price |
| Dashboard.MinPrice | dashboard.py:72 | the slider's minimum is a price of some cleaned row and no larger than any |
| Dashboard.MaxPrice | dashboard.py:73 | the slider's maximum is a price of some cleaned row and no smaller than any |
| Dashboard.FilterFacts | dashboard.py:82-89 | the filtered rows are exactly, and only, the cleaned rows inside the inclusive price range whose name or address contains the term, ignoring case |
| Dashboard.MissingNeverMatches | dashboard.py:86-87 | a row with neither a name nor an address never passes the filter (`na=False`) |
| Dashboard.EmptyTermMatches | dashboard.py:86-87 | the empty search term matches every present cell |
| Dashboard.SumBounds | dashboard.py:97 | when every shown price lies in the range, the sum lies between `lo` and `hi` times the count |
| Dashboard.DisplayFacts | dashboard.py:61-99 | the page stops exactly when some price raises or no row has a price; otherwise it counts every scraped row, displays the filtered ones, never more, and shows "N/A" exactly when nothing is displayed |
| Dashboard.DisplayAverageInRange | dashboard.py:96-97 | the average shown lies within the chosen price range |
| Dashboard.DefaultViewKeepsNamed | dashboard.py:71-89 | with the default slider and an empty search, every cleaned row with a name or an address is displayed, and no other |
| Text.StripFacts | price_tracker.py:101 | `str.strip` leaves the block between the leading and trailing whitespace |
| Text.ContainsIff | dashboard.py:86 | the substring test holds exactly when the term occurs at some position |

## Left out

- Fetching the page: Playwright, its timeouts, the pop-up handling and the `FATAL ERROR` path (`price_tracker.py:58-113`). The model takes the listings the page showed as input. A listing whose fields raised while being read is `Unreadable`. A fatal error partway through leaves the listings read so far, which is just a shorter input. The console lines of the scraper itself are not modelled.
- The clock. `datetime.now()` becomes a parameter that gives the stamp of the run's i-th change. The timestamp format is not modelled.
- Files and I/O errors. The price file, the log and the console are fields of `PriceTracker`. A price file is modelled as missing, not valid JSON, or a JSON object of records. I/O errors are not modelled, and neither are the following cases, in which the run stops:
  - A price file that is not valid UTF-8. `UnicodeDecodeError` escapes `load_old_prices`, which catches only `json.JSONDecodeError` (`price_tracker.py:36-37`).
  - A price file holding valid JSON that is not an object. `old_prices.get` then raises `AttributeError` at `price_tracker.py:128`.
  - A stored record without a `name` or `price` key.
- JSON and floating point. Prices are whole numbers (`nat`), because the normaliser only ever reads digits. Float precision above 2^53 is not modelled. A float price is written in a log line as its digits followed by `.0`. The dashboard's average is kept as the exact pair (sum, count). Its rounding by `:.0f` is not modelled.
- `\w`, `\s`, `str.strip` and case folding use their ASCII meanings. The whitespace set is space, tab, line feed, vertical tab, form feed, carriage return and U+001C to U+001F. Non-ASCII letters, digits and whitespace (U+0085, U+00A0 and others), and Unicode case folding, are not modelled.
- Normalise.CleanPrice: the digit class `\d` is ASCII only, so a non-ASCII Unicode digit is treated as a non-digit.
- Dashboard.Matches: `str.contains` is called with its default `regex=True`. The model treats the search term as a literal substring, so a term holding regular-expression syntax is not modelled.
- Dashboard.CleanAmenities: `str(amenity)` of a non-string item is not modelled; list items are strings.
- The dashboard's `load_data` (`dashboard.py:14-28`), the Streamlit widgets and layout, the table and the histogram (`dashboard.py:101` onwards). The search term and the slider position are inputs. A slider position is any pair of integers, not only one inside the minimum and maximum.
- `uhomes_scraper_sorted.py` is not part of this model.
