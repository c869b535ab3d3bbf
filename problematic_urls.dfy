/** The table of known problematic URLs and its lookup by severity. */
module ProblematicUrls {
  import opened Wrappers
  import opened Dicts
  import UrlBuilder
  import KnownIssues

  const Offer7Url: string := "http://selenium1py.pythonanywhere.com/catalogue/coders-at-work_207/?promo=offer7"

  /** `ProblematicUrls.UI_BUGS` */
  const UiBugs: Dict<string> := [("product_name_bug", Offer7Url)]

  /** `ALL_PROBLEMATIC_URLS = {**UI_BUGS}` */
  const AllProblematicUrls: Dict<string> := Merge([], UiBugs)

  /** The keys listed under each severity inside `get_urls_by_severity`. */
  const Severities: Dict<seq<string>> :=
    [("critical", []), ("high", []), ("medium", []), ("low", ["product_name_bug"])]

  const DefaultSeverity: string := "all"

  /** The UI-bug table maps the one key "product_name_bug" to the offer-7 URL. */
  lemma UiBugsTable()
    ensures Keys(UiBugs) == ["product_name_bug"]
    ensures Get(UiBugs, "product_name_bug") == Some(Offer7Url)
  {
    assert Keys(UiBugs) == [UiBugs[0].0];
  }

  /** Unpacking the one table gives that table back. */
  lemma AllProblematicUrlsIsUiBugs()
    ensures AllProblematicUrls == UiBugs
  {
    assert [] + UiBugs == UiBugs;
    MergeDisjoint([], UiBugs);
  }

  /** Every key a severity lists is a key of the whole table, so the lookup never
      raises KeyError. */
  lemma SeverityKeysKnown(severity: string)
    ensures forall k :: k in Get(Severities, severity).GetOr([]) ==> k in Keys(AllProblematicUrls)
  {
    AllProblematicUrlsIsUiBugs();
  }

  /** `get_urls_by_severity(severity)`: the whole table for "all", otherwise the
      items listed for the severity, none for a severity the table does not know. */
  function GetUrlsBySeverity(severity: string := DefaultSeverity): (urls: Dict<string>)
    ensures IsSubDict(urls, AllProblematicUrls)
  {
    if severity == "all" then AllProblematicUrls
    else
      SeverityKeysKnown(severity);
      SelectKeys(AllProblematicUrls, Get(Severities, severity).GetOr([]))
  }

  /** The default severity "all" returns the whole table unchanged. */
  lemma AllSeverityIsWholeTable()
    ensures GetUrlsBySeverity() == AllProblematicUrls == UiBugs
  {
    AllProblematicUrlsIsUiBugs();
  }

  /** The keys each severity lists: one for "low", none for any other. */
  lemma SeverityTable(severity: string)
    ensures Get(Severities, severity).GetOr([]) == if severity == "low" then ["product_name_bug"] else []
  {
  }

  /** "low" returns exactly the product-name bug. */
  lemma LowSeverity()
    ensures GetUrlsBySeverity("low") == [("product_name_bug", Offer7Url)]
  {
    var k := "product_name_bug";
    SeverityTable("low");
    AllProblematicUrlsIsUiBugs();
    assert Get(UiBugs, k) == Some(Offer7Url);
    assert [k][..0] == [];
    assert SelectKeys(UiBugs, [k]) == Put([], k, Offer7Url);
  }

  /** "critical", "high", "medium" and any severity the table does not know return
      an empty table rather than raising. */
  lemma OtherSeveritiesEmpty(severity: string)
    requires severity !in ["all", "low"]
    ensures GetUrlsBySeverity(severity) == []
  {
    SeverityTable(severity);
  }

  /** The problematic URL is the eighth generated promo URL. */
  lemma Offer7IsPromoUrl()
    ensures Offer7Url == UrlBuilder.GetPromoUrls()[7]
  {
    UrlBuilder.DefaultPromoUrls();
    UrlBuilder.PromoBaseUrlWrittenOut();
    var promoBase := "http://selenium1py.pythonanywhere.com/catalogue/coders-at-work_207";
    assert promoBase + "/?promo=offer7" == Offer7Url;
  }

  /** It is also the URL the known-issue registry records for the product-name bug. */
  lemma Offer7IsRegistered()
    ensures Offer7Url == KnownIssues.IncorrectProductNameBug.url
  {
  }
}
