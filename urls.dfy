/** The URL builders of the test suite: the site root for a language code, the fixed
    page paths under it, the numbered promo-offer links, and a small list of URLs. */
module UrlBuilder {
  import opened Wrappers
  import opened Strings

  const BaseUrl: string := "http://selenium1py.pythonanywhere.com"
  const PromoBaseUrl: string := BaseUrl + "/catalogue/coders-at-work_207"
  /** What stands between the promo base and the offer number. */
  const PromoQuery: string := "/?promo=offer"
  const DefaultPromoCount: int := 10
  const DefaultLanguage: string := "en-gb"

  // ----- promo offers -----

  /** The URL of offer `no`: the promo base, the query, then the offer number in
      decimal. */
  function PromoUrl(no: nat): (url: string)
    ensures IsPrefix(PromoBaseUrl + PromoQuery, url)
    ensures |url| > |PromoBaseUrl + PromoQuery| && AllDigits(url[|PromoBaseUrl + PromoQuery|..])
  {
    var prefix := PromoBaseUrl + PromoQuery;
    var url := prefix + NatToString(no);
    assert url[|prefix|..] == NatToString(no);
    url
  }

  /** Reads the offer number back out of a promo URL: the reference against which
      the generated list is checked. Only the form `str` writes is accepted: digits
      without a leading zero. */
  function PromoOfferNumber(url: string): Option<nat> {
    var prefix := PromoBaseUrl + PromoQuery;
    if IsPrefix(prefix, url) && |url| > |prefix| && AllDigits(url[|prefix|..]) &&
       (url[|prefix|] != '0' || |url| == |prefix| + 1)
    then Some(ParseDigits(url[|prefix|..]))
    else None
  }

  /** A URL the decoder accepts for offer `no` is exactly the URL of that offer. */
  lemma PromoOfferNumberCanonical(url: string, no: nat)
    requires PromoOfferNumber(url) == Some(no)
    ensures url == PromoUrl(no)
  {
    var prefix := PromoBaseUrl + PromoQuery;
    var digits := url[|prefix|..];
    assert digits[0] == url[|prefix|];
    NatToStringParse(digits);
    assert url == prefix + digits;
  }

  lemma PromoUrlRoundTrip(no: nat)
    ensures PromoOfferNumber(PromoUrl(no)) == Some(no)
  {
    var prefix := PromoBaseUrl + PromoQuery;
    assert PromoUrl(no)[|prefix|..] == NatToString(no);
    ParseNatToString(no);
  }

  /** `get_promo_urls(count)`: one URL per offer number 0 .. count - 1, in order
      (`range` of a negative count is empty). */
  function GetPromoUrls(count: int := DefaultPromoCount): (urls: seq<string>)
    ensures |urls| == if count < 0 then 0 else count
    ensures forall i :: 0 <= i < |urls| ==> IsPrefix(PromoBaseUrl, urls[i])
    ensures forall i :: 0 <= i < |urls| ==> PromoOfferNumber(urls[i]) == Some(i)
  {
    var n := if count < 0 then 0 else count;
    var urls := seq(n, no requires 0 <= no => PromoUrl(no));
    assert forall i :: 0 <= i < n ==> PromoOfferNumber(urls[i]) == Some(i) by {
      forall i | 0 <= i < n ensures PromoOfferNumber(urls[i]) == Some(i) {
        PromoUrlRoundTrip(i);
      }
    }
    urls
  }

  /** The generated promo URLs are pairwise distinct. */
  lemma PromoUrlsDistinct(count: int, i: nat, j: nat)
    requires i < j < |GetPromoUrls(count)|
    ensures GetPromoUrls(count)[i] != GetPromoUrls(count)[j]
  {
  }

  lemma PromoBaseUrlWrittenOut()
    ensures PromoBaseUrl == "http://selenium1py.pythonanywhere.com/catalogue/coders-at-work_207"
  {
  }

  /** The URL of offer 7. */
  lemma PromoUrlSeven()
    ensures PromoUrl(7) == PromoBaseUrl + "/?promo=offer7"
  {
    assert NatToString(7) == "7";
  }

  /** With the default count the list holds ten URLs, the eighth of them for offer 7. */
  lemma DefaultPromoUrls()
    ensures |GetPromoUrls()| == 10
    ensures GetPromoUrls()[7] == PromoBaseUrl + "/?promo=offer7"
  {
    assert GetPromoUrls()[7] == PromoUrl(7);
    PromoUrlSeven();
  }

  // ----- language roots -----

  /** `language.split('-')[0]`: the text before the first '-'. */
  function BeforeFirstDash(language: string): (head: string)
    ensures IsPrefix(head, language)
    ensures '-' !in head
    ensures |head| < |language| ==> language[|head|] == '-'
  {
    if language == [] || language[0] == '-' then []
    else [language[0]] + BeforeFirstDash(language[1..])
  }

  /** The locale of a language code: what stands before its first '-', or all of it. */
  function Locale(language: string): (locale: string)
    ensures IsPrefix(locale, language)
    ensures '-' !in locale
    ensures |locale| < |language| ==> language[|locale|] == '-'
  {
    if '-' in language then BeforeFirstDash(language) else language
  }

  /** The three properties of `Locale` pin it down: any dash-free prefix that ends at
      the end of the code or at a '-' is the locale. */
  lemma LocaleUnique(language: string, p: string)
    requires IsPrefix(p, language) && '-' !in p
    requires |p| < |language| ==> language[|p|] == '-'
    ensures p == Locale(language)
  {
    var l := Locale(language);
    assert forall i :: 0 <= i < |l| ==> language[i] != '-' by {
      forall i | 0 <= i < |l| ensures language[i] != '-' {
        assert language[i] == l[i];
      }
    }
    assert forall i :: 0 <= i < |p| ==> language[i] != '-' by {
      forall i | 0 <= i < |p| ensures language[i] != '-' {
        assert language[i] == p[i];
      }
    }
    assert |p| == |l|;
    assert p == language[..|p|] == l;
  }

  /** `get_localized_url(language)`: the site root, with no language segment for
      English and `/<locale>/` otherwise. */
  function GetLocalizedUrl(language: string := DefaultLanguage): (root: string)
    ensures IsPrefix(BaseUrl + "/", root) && EndsWith(root, '/')
  {
    var locale := Locale(language);
    if locale == "en" then BaseUrl + "/" else BaseUrl + "/" + locale + "/"
  }

  /** The language segment of a site root, read back: the decoding partner of
      `GetLocalizedUrl`. None when the root has no segment. */
  function LanguageSegment(root: string): Option<string> {
    var n := |BaseUrl| + 1;
    if IsPrefix(BaseUrl + "/", root) && |root| > n && root[|root| - 1] == '/'
    then Some(root[n..|root| - 1])
    else None
  }

  /** The root names the locale, except that English roots name none. */
  lemma LocalizedUrlRoundTrip(language: string)
    ensures LanguageSegment(GetLocalizedUrl(language)) ==
            if Locale(language) == "en" then None else Some(Locale(language))
  {
    var locale := Locale(language);
    if locale != "en" {
      var root := GetLocalizedUrl(language);
      assert root[|BaseUrl| + 1..|root| - 1] == locale;
    }
  }

  /** Two language codes give the same root exactly when both are English or both
      have the same locale. */
  lemma LocalizedUrlSameRoot(a: string, b: string)
    ensures GetLocalizedUrl(a) == GetLocalizedUrl(b) <==>
            (Locale(a) == "en" && Locale(b) == "en") || Locale(a) == Locale(b)
  {
    LocalizedUrlRoundTrip(a);
    LocalizedUrlRoundTrip(b);
  }

  /** "en", "en-gb" and "en-US" all lead to the bare root; "fi" does not. */
  lemma EnglishLocales()
    ensures Locale("en") == "en" && Locale("en-gb") == "en" && Locale("en-US") == "en"
  {
    LocaleUnique("en-gb", "en");
    LocaleUnique("en-US", "en");
  }

  lemma EnglishRoots()
    ensures GetLocalizedUrl() == BaseUrl + "/"
    ensures GetLocalizedUrl("en") == BaseUrl + "/"
    ensures GetLocalizedUrl("en-US") == BaseUrl + "/"
  {
    EnglishLocales();
  }

  lemma FinnishRoot()
    ensures GetLocalizedUrl("fi") == BaseUrl + "/fi/"
  {
  }

  // ----- page URLs -----

  function MainPageUrl(language: string := DefaultLanguage): (url: string)
    ensures IsPrefix(BaseUrl + "/", url) && EndsWith(url, '/')
  {
    GetLocalizedUrl(language)
  }

  function LoginPageUrl(language: string := DefaultLanguage): (url: string)
    ensures IsPrefix(BaseUrl + "/", url) && EndsWith(url, '/')
  {
    GetLocalizedUrl(language) + "accounts/login/"
  }

  function ProductPageUrl(productSlug: string, language: string := DefaultLanguage): (url: string)
    ensures IsPrefix(BaseUrl + "/", url) && EndsWith(url, '/')
  {
    GetLocalizedUrl(language) + "catalogue/" + productSlug + "/"
  }

  function BasketPageUrl(language: string := DefaultLanguage): (url: string)
    ensures IsPrefix(BaseUrl + "/", url) && EndsWith(url, '/')
  {
    GetLocalizedUrl(language) + "basket/"
  }

  function CataloguePageUrl(language: string := DefaultLanguage): (url: string)
    ensures IsPrefix(BaseUrl + "/", url) && EndsWith(url, '/')
  {
    GetLocalizedUrl(language) + "catalogue/"
  }

  /** The pages the builders address. */
  datatype Page = Main | Login | Product(slug: string) | Basket | Catalogue

  /** Which page a path below a site root addresses. */
  function ParsePath(path: string): Option<Page> {
    var cat := "catalogue/";
    if path == "" then Some(Main)
    else if path == "accounts/login/" then Some(Login)
    else if path == "basket/" then Some(Basket)
    else if path == cat then Some(Catalogue)
    else if IsPrefix(cat, path) && |path| > |cat| && path[|path| - 1] == '/'
    then Some(Product(path[|cat|..|path| - 1]))
    else None
  }

  /** Which page a URL addresses under the root of `language`: the decoding partner
      of the five builders. */
  function ParsePageUrl(language: string, url: string): Option<Page> {
    var root := GetLocalizedUrl(language);
    if IsPrefix(root, url) then ParsePath(url[|root|..]) else None
  }

  /** A URL under the root is parsed by its path alone. */
  lemma ParseUnderRoot(language: string, path: string)
    ensures ParsePageUrl(language, GetLocalizedUrl(language) + path) == ParsePath(path)
  {
    var root := GetLocalizedUrl(language);
    assert (root + path)[..|root|] == root;
    assert (root + path)[|root|..] == path;
  }

  /** A product path is read back as the product page of its slug. */
  lemma ProductPathRoundTrip(productSlug: string)
    ensures ParsePath("catalogue/" + productSlug + "/") == Some(Product(productSlug))
  {
    var path := "catalogue/" + productSlug + "/";
    assert path[0] == 'c' && path[|path| - 1] == '/' && |path| > 10;
    assert path[0] != "accounts/login/"[0] && path[0] != "basket/"[0];
    assert path[..10] == "catalogue/";
    assert path[10..|path| - 1] == productSlug;
  }

  /** Every builder's URL is read back as the page it was built for, so the five
      builders never produce the same URL for one language. */
  lemma PageUrlsRoundTrip(language: string, productSlug: string)
    ensures ParsePageUrl(language, MainPageUrl(language)) == Some(Main)
    ensures ParsePageUrl(language, LoginPageUrl(language)) == Some(Login)
    ensures ParsePageUrl(language, BasketPageUrl(language)) == Some(Basket)
    ensures ParsePageUrl(language, CataloguePageUrl(language)) == Some(Catalogue)
    ensures ParsePageUrl(language, ProductPageUrl(productSlug, language)) == Some(Product(productSlug))
  {
    var root := GetLocalizedUrl(language);
    assert root + "" == root;
    ParseUnderRoot(language, "");
    ParseUnderRoot(language, "accounts/login/");
    ParseUnderRoot(language, "basket/");
    ParseUnderRoot(language, "catalogue/");
    assert root + "catalogue/" + productSlug + "/" == root + ("catalogue/" + productSlug + "/");
    ParseUnderRoot(language, "catalogue/" + productSlug + "/");
    ProductPathRoundTrip(productSlug);
  }

  // ----- the list object -----

  /** An instance of `Urls`: a growing list of URLs. */
  class Urls {
    var urls: seq<string>

    constructor ()
      ensures urls == []
    {
      urls := [];
    }

    method AddUrl(url: string)
      modifies this
      ensures urls == old(urls) + [url]
    {
      urls := urls + [url];
    }

    method GetUrls() returns (r: seq<string>)
      ensures r == urls
    {
      r := urls;
    }
  }

  /** A fresh list given URLs one by one hands them back in the order they came. */
  method CollectInOrder(a: string, b: string) returns (r: seq<string>)
    ensures r == [a, b]
  {
    var list := new Urls();
    list.AddUrl(a);
    list.AddUrl(b);
    r := list.GetUrls();
  }
}
