# Product page test suite: URL builders, message checks and issue registries

This project models the non-browser core of a Selenium test suite for the demo shop
at `http://selenium1py.pythonanywhere.com`:

- **UrlBuilder** (`urls.dfy`) — the `Urls` helper. It builds the site root for a
  language code: the bare root for English, `/<locale>/` for any other locale. It
  builds the five page URLs under that root and the numbered promo-offer links of the
  "Coders at Work" product. A `Urls` object is a list of URLs that only grows. Each
  builder has a decoding partner (`PromoOfferNumber`, `LanguageSegment`,
  `ParsePageUrl`), and round-trip lemmas tie the two together.
- **ProductMessages** (`product_page.dfy`) — the product page object. Its snapshot
  `product_data` is a `map` field of a class, set by `open`. The two text searches
  are methods with loops, each proved against a specification function:
  - `_find_message_containing_text` keeps every message that contains the search text
    and is at least `min_length_delta` characters longer than it;
  - `_find_matching_text_in_messages` returns the first `<strong>` text that equals
    the target, contains it, or is contained in it.

  The four `should_*` checks sit on top of these two searches. The browser is
  replaced by what it returns. Element texts come in as an ordered sequence, a found
  element is its position in that sequence, and each explicit wait comes in as either
  the text it read or a timeout.
- **KnownIssues** (`known_issues.dfy`) — the registry of known issues and its three
  filters: urgent, active and stale. "Now" is a parameter, given in seconds.
- **ProblematicUrls** (`problematic_urls.dfy`) — the table of problematic URLs and its
  lookup by severity.
- **Strings**, **Dicts** and **Wrappers** — supporting modules:
  - Strings: Python's `in` on strings, and decimal rendering;
  - Dicts: a Python `dict` as the ordered list of its items, with `get`, item
    assignment, `**` unpacking and a key-selecting comprehension;
  - Wrappers: `Option`.

Python raises an exception in several places. Those outcomes are values of
`ProductMessages.Outcome`:

- a missing `product_data` key is `KeyError`;
- a `TimeoutException` from a wait is `Timeout`;
- a failed `assert` is `Failed`, with the assertion's reason.

The locale of a language code is the text before its first '-', or the whole code when
it has none (`urls.py:33`). There is no fallback to `en-gb`: every `en-…` code gives the
bare English root, and `fi-FI` gives `/fi/`.

## Model

| member | source | states |
|---|---|---|
| `Strings.NatToString` | urls.py:13 | the decimal form of an offer number is non-empty, all digits, and has no leading zero |
| `Strings.ParseNatToString` | urls.py:13 | parsing the decimal form of any number n gives n back |
| `Strings.NatToStringParse` | urls.py:13 | a non-empty digit string without a leading zero is the decimal form of the number it stands for |
| `Strings.ParseDigitsPositive` | urls.py:13 | a non-empty digit string that does not start with '0' stands for a positive number |
| `Strings.NatToStringInjective` | urls.py:13 | different offer numbers give different decimal forms |
| `Strings.ContainsIffOccurs` | pages/product_page.py:291 | Python's `needle in s` holds exactly when `needle` starts at some position of `s` |
| `Strings.ContainsLength` | pages/product_page.py:321-322 | a string that contains another is at least as long, and one of equal length is that string |
| `Dicts.Keys` | known_issues.py:51 | the key list has one key per item, in item order |
| `Dicts.SubsequenceKeys` | known_issues.py:51 | the keys of an order-preserving selection are an order-preserving selection of the keys |
| `Dicts.Get` | problematic_urls.py:27 | `dict.get` finds a value exactly when the key is present, and the value found is stored under that key |
| `Dicts.Put` | known_issues.py:44 | item assignment keeps an existing key's position or appends the new key; the new item is present and no other item is new |
| `Dicts.PutFresh` | known_issues.py:44 | assigning a key not yet present appends the item at the end |
| `Dicts.Merge` | problematic_urls.py:10-12 | the keys of `{**d, **e}` are exactly the keys of d and of e, and each of its items comes from d or e |
| `Dicts.MergeDisjoint` | problematic_urls.py:10-12 | `{**d, **e}` over dicts without clashing keys lists d's items, then e's |
| `Dicts.SelectKeys` | problematic_urls.py:27 | `{k: d[k] for k in ks}` holds only items of d, and its keys are exactly the listed keys |
| `UrlBuilder.PromoUrl` | urls.py:13 | an offer URL is the promo base and `/?promo=offer`, followed by one or more digits |
| `UrlBuilder.PromoOfferNumberCanonical` | urls.py:13 | the only URL the offer-number decoder reads as offer n is the URL of offer n |
| `UrlBuilder.PromoUrlRoundTrip` | urls.py:13 | the offer number is read back out of its promo URL |
| `UrlBuilder.GetPromoUrls` | urls.py:11-13 | `count` URLs (none for a negative count); each lies under the promo base, and the URL at position i decodes to offer number i, which makes it the URL of offer i |
| `UrlBuilder.PromoUrlsDistinct` | urls.py:11-13 | the generated promo URLs are pairwise distinct |
| `UrlBuilder.PromoBaseUrlWrittenOut` | urls.py:6-7 | the promo base is the product URL of "coders-at-work_207" on the shop |
| `UrlBuilder.PromoUrlSeven` | urls.py:13 | offer 7's URL ends in `/?promo=offer7` |
| `UrlBuilder.DefaultPromoUrls` | urls.py:11-13 | the default count gives ten URLs, the eighth being offer 7 |
| `UrlBuilder.BeforeFirstDash` | urls.py:33 | `split('-')[0]` is a dash-free prefix of the code that ends at the code's end or at its first '-' |
| `UrlBuilder.Locale` | urls.py:33 | the locale is a dash-free prefix of the code that ends at the code's end or at its first '-' |
| `UrlBuilder.LocaleUnique` | urls.py:33 | those three properties determine the locale uniquely |
| `UrlBuilder.GetLocalizedUrl` | urls.py:26-39 | every root lies under the base URL followed by '/', and ends in '/' |
| `UrlBuilder.LocalizedUrlRoundTrip` | urls.py:36-39 | an English locale gives a root with no language segment; any other locale gives a root whose segment is that locale |
| `UrlBuilder.LocalizedUrlSameRoot` | urls.py:33-39 | two codes share a root exactly when both are English or both have the same locale |
| `UrlBuilder.EnglishLocales` | urls.py:33 | "en", "en-gb" and "en-US" all have locale "en" |
| `UrlBuilder.EnglishRoots` | urls.py:26-37 | the default code, "en" and "en-US" all give the bare root |
| `UrlBuilder.FinnishRoot` | urls.py:38-39 | "fi" gives the `/fi/` root |
| `UrlBuilder.MainPageUrl` | urls.py:43-49 | the main page URL lies under the base URL and ends in '/' |
| `UrlBuilder.LoginPageUrl` | urls.py:52-58 | the login page URL lies under the base URL and ends in '/' |
| `UrlBuilder.ProductPageUrl` | urls.py:62-69 | the product page URL lies under the base URL and ends in '/' |
| `UrlBuilder.BasketPageUrl` | urls.py:73-79 | the basket page URL lies under the base URL and ends in '/' |
| `UrlBuilder.CataloguePageUrl` | urls.py:82-88 | the catalogue page URL lies under the base URL and ends in '/' |
| `UrlBuilder.ParseUnderRoot` | urls.py:49-88 | a URL under a language's root is identified by the path after the root |
| `UrlBuilder.ProductPathRoundTrip` | urls.py:69 | a product path is read back as the product page of its slug |
| `UrlBuilder.PageUrlsRoundTrip` | urls.py:43-88 | each of the five builders' URLs is read back as the page it was built for, so no two builders collide for one language |
| `UrlBuilder.Urls.constructor` | urls.py:16-17 | a new list is empty |
| `UrlBuilder.Urls.AddUrl` | urls.py:19-20 | the URL is appended at the end and nothing else changes |
| `UrlBuilder.Urls.GetUrls` | urls.py:22-23 | returns the stored list as it is |
| `UrlBuilder.CollectInOrder` | urls.py:16-23 | a fresh list given two URLs hands them back in that order |
| `ProductMessages.Qualifies` | pages/product_page.py:321-322 | a text that qualifies is at least as long as the search text |
| `ProductMessages.QualifyingMessages` | pages/product_page.py:318-324 | the collected texts are no more than the page's texts, and every one of them qualifies |
| `ProductMessages.Matches` | pages/product_page.py:291 | a strong text matches exactly when it contains the target or the target contains it, so the equality test adds nothing |
| `ProductMessages.FirstMatch` | pages/product_page.py:289-293 | a returned strong text is on the list and matches the target |
| `ProductMessages.SuccessMessageCheck` | pages/product_page.py:86-121 | KeyError exactly when no name is stored; never a timeout, since the wait's timeout becomes a failure; a failure names the stored name and is "no messages at all" exactly when the wait saw none |
| `ProductMessages.BasketTotalMessageCheck` | pages/product_page.py:123-146 | a timeout exactly when the live price cannot be read; never a KeyError, since the snapshot is not read; a failure reports the price as not found |
| `ProductMessages.ValueInMessageBoxCheck` | pages/product_page.py:148-186 | KeyError exactly when the value is not stored; never a timeout; a failure names the stored value, and a mismatch reports a strong text that matches the value without being equal to it |
| `ProductMessages.QualifyingMessagesMembers` | pages/product_page.py:318-324 | a text is collected exactly when it is on the page and qualifies (contains the search text and is long enough) |
| `ProductMessages.QualifyingMessagesEmpty` | pages/product_page.py:321-328 | every collected text contains the search text; nothing is collected exactly when no text qualifies |
| `ProductMessages.DefaultDeltaExcludesExactText` | pages/product_page.py:298-322 | with the default delta of 1, a text qualifies exactly when it contains the search text and is not that text itself |
| `ProductMessages.ScanStep` | pages/product_page.py:318-324 | one more loop iteration keeps the scan invariant |
| `ProductMessages.ScanDone` | pages/product_page.py:318-324 | after the loop, the collected texts are the qualifying ones, and the first position found is the first qualifying element |
| `ProductMessages.FirstMatchAt` | pages/product_page.py:289-292 | the first matching strong text is the one returned |
| `ProductMessages.FirstMatchNone` | pages/product_page.py:289-293 | nothing is returned exactly when no strong text matches |
| `ProductMessages.FirstMatchSound` | pages/product_page.py:289-292 | a returned text is on the list, matches, and no earlier text matches |
| `ProductMessages.EmptyTextMatchesEverything` | pages/product_page.py:291 | an empty strong text matches any target |
| `ProductMessages.SuccessMessagePassIff` | pages/product_page.py:86-121 | the success check passes exactly when the name is stored, messages appeared, and some message properly contains the name |
| `ProductMessages.BasketTotalMessagePassIff` | pages/product_page.py:123-146 | the basket-total check passes exactly when the live price is read and some message contains it and is not the price itself |
| `ProductMessages.ValueInMessageBoxPassIff` | pages/product_page.py:148-186 | the name or price check passes exactly when the value is stored and the first matching strong text is the value itself |
| `ProductMessages.DecoyBeforeExactFails` | pages/product_page.py:159-166 | a near match before the exact text makes the check fail with that near match as "got" |
| `ProductMessages.CodersAtWorkScenario` | pages/product_page.py:86-166 | "Coders at Work" passes the success check on its basket message, and fails the name check when "Coders at Work book" comes first |
| `ProductMessages.ProductPage.constructor` | pages/product_page.py:34-45 | a new page keeps its URL and has an empty snapshot |
| `ProductMessages.ProductPage.Open` | pages/product_page.py:47-57 | opening stores the name and price read; a timeout on either leaves the snapshot as it was |
| `ProductMessages.ProductPage.UpdateProductData` | pages/product_page.py:230-259 | the name is read first, then the price; the snapshot is replaced only when both reads succeed |
| `ProductMessages.ProductPage.FindMessageContainingText` | pages/product_page.py:295-337 | returns every qualifying message in page order, plus the position of the first qualifying element (none exactly when nothing qualifies); no earlier element qualifies |
| `ProductMessages.ProductPage.FindMatchingTextInMessages` | pages/product_page.py:275-293 | returns the first strong text that matches the target, and nothing exactly when none matches |
| `ProductMessages.ProductPage.ShouldBeSuccessMessage` | pages/product_page.py:86-121 | fails with KeyError without a stored name, fails when the wait sees no message, fails when no message qualifies, and otherwise passes |
| `ProductMessages.ProductPage.ShouldShowBasketTotalMessage` | pages/product_page.py:123-146 | times out when the live price cannot be read, fails when no message qualifies for it, and otherwise passes |
| `ProductMessages.ProductPage.ShouldHaveCorrectValueInMessageBox` | pages/product_page.py:148-186 | fails with KeyError without the stored value, fails when no strong text matches it, fails with the near match when the first match is not equal, and otherwise passes |
| `ProductMessages.ProductPage.ShouldHaveCorrectProductNameInMessageBox` | pages/product_page.py:148-166 | the exact-name check on the stored name |
| `ProductMessages.ProductPage.ShouldHaveCorrectPriceInMessageBox` | pages/product_page.py:168-186 | the exact-price check on the stored price |
| `ProductMessages.OpenThenCheckName` | pages/product_page.py:47-166 | after opening, the name check passes exactly when the name read is on the strong-text list and no earlier strong text matches it |
| `KnownIssues.ShippedIssueRecord` | known_issues.py:6-27 | the shipped registry has the one key "incorrect_product_name_bug", stored under its own name, with severity low, status open and reported on 2025-08-17 |
| `KnownIssues.Meets` | known_issues.py:32-51 | an issue that meets the stale rule is open, so it also meets the active rule |
| `KnownIssues.Where` | known_issues.py:30-51 | a selection is no longer than the registry, and each selected item is an item of the registry that meets the rule |
| `KnownIssues.WhereMembers` | known_issues.py:30-51 | an item is selected exactly when it is in the registry and meets the rule |
| `KnownIssues.WhereSubsequence` | known_issues.py:30-51 | a selection keeps registry order |
| `KnownIssues.WhereKeys` | known_issues.py:40-44 | a selection introduces no new key |
| `KnownIssues.GetUrgentIssues` | known_issues.py:30-32 | an item is urgent exactly when its severity is critical or high; the items keep their values and registry order |
| `KnownIssues.GetActiveIssues` | known_issues.py:49-51 | every open or in-progress issue's key is listed, every listed key belongs to such an issue, and the keys keep registry order |
| `KnownIssues.ClosedIssuesNeverActive` | known_issues.py:49-51 | a fixed or wont_fix issue is never listed as active |
| `KnownIssues.StaleIssues` | known_issues.py:35-46 | an item is stale exactly when it is open and was reported strictly before now minus the given days; the items keep registry order |
| `KnownIssues.GetStaleIssues` | known_issues.py:35-46 | the loop that puts each stale item into a new dict builds exactly the stale selection |
| `KnownIssues.ShippedRegistry` | known_issues.py:6-27 | as shipped, the one issue is active and not urgent, and it is stale exactly when more than 30 days have passed since 2025-08-17 |
| `KnownIssues.RegisteredBugIsCaught` | known_issues.py:10-11 | the registered incorrect and correct names make the exact-name check fail with that mismatch |
| `ProblematicUrls.UiBugsTable` | problematic_urls.py:8 | the UI-bug table has the one key "product_name_bug", mapped to the offer-7 URL |
| `ProblematicUrls.AllProblematicUrlsIsUiBugs` | problematic_urls.py:10-12 | unpacking the one table gives that table back |
| `ProblematicUrls.SeverityKeysKnown` | problematic_urls.py:17-27 | every key a severity lists is in the whole table, so the comprehension never raises KeyError |
| `ProblematicUrls.GetUrlsBySeverity` | problematic_urls.py:15-27 | every returned item belongs to the whole table |
| `ProblematicUrls.AllSeverityIsWholeTable` | problematic_urls.py:24-25 | the default "all" gives the whole table |
| `ProblematicUrls.SeverityTable` | problematic_urls.py:17-27 | "low" lists the product-name bug, and every other severity, known or not, lists nothing |
| `ProblematicUrls.LowSeverity` | problematic_urls.py:21-27 | "low" gives exactly the product-name bug |
| `ProblematicUrls.OtherSeveritiesEmpty` | problematic_urls.py:18-27 | any severity other than "all" and "low" gives an empty table |
| `ProblematicUrls.Offer7IsPromoUrl` | problematic_urls.py:8 | the problematic URL is the eighth generated promo URL |
| `ProblematicUrls.Offer7IsRegistered` | problematic_urls.py:8 | the problematic URL is the registered bug's URL |

## Left out

- Browser navigation in `open` (`pages/base_page.py`) and the inside of `wait_for_element`: the page's texts and each wait's result are inputs.
- The page objects for the main, login and basket pages, `conftest.py`, the decorators, `translations.py`, the locators, `utils/generate_structure.py` and the test modules: none of them is in this model.
- `solve_quiz_and_get_code`: it computes with floating point and talks to browser alerts.
- `click_add_to_basket` and `should_be_add_to_basket_button`: they only click or look for an element.
- `should_not_be_success_message` and `success_message_should_disappear`: they rest on the presence and absence waits, which are not part of this model.
- `_get_strong_texts_from_message_box`: the strong texts are an input of the checks.
- The text of the assertion messages and of the printed warning in `_find_message_containing_text`: a failure carries its reason and the values it names, not the text.
- ProductMessages.ProductPage.FindMessageContainingText: does not model the warning printed for several matches without `expect_multiple`, because printing is I/O; all three branches return the same values.
- KnownIssues.GetStaleIssues: does not model `datetime.now()` or `strptime`. The caller passes "now", and the reported date is the start of its day in seconds on the same clock.
- KnownIssues.GetStaleIssues: requires distinct keys. A Python dict guarantees this, but the association list does not.
- UrlBuilder.Urls.GetUrls: returns a value, not the shared list, so later changes to the returned list through aliasing are not modelled.
- A KeyError from a missing field of an issue record: the `Issue` datatype always has every field.
- The registry's date fields other than `reported_date` are kept as strings, because no filter reads them.
