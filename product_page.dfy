/** The message-matching rules of the product page object. The browser is replaced by
    what it returns: the ordered texts of the elements a locator finds, and, for each
    explicit wait, either the text read or a timeout. A found element is its position
    in that list. */
module ProductMessages {
  import opened Wrappers
  import opened Strings

  /** The smallest surplus length `_find_message_containing_text` asks for by default. */
  const DefaultMinLengthDelta: int := 1

  /** How a check ends: it passes, `product_data` lacks the key it reads (Python's
      KeyError), an explicit wait gives up (TimeoutException), or an assertion fails. */
  datatype Outcome =
    | Pass
    | KeyError(key: string)
    | Timeout(element: string)
    | Failed(reason: Reason)

  datatype Reason =
    | NoMessagesAtAll(expected: string)
    | MessageNotFound(expected: string)
    | NotFoundInMessages(expected: string)
    | Mismatch(expected: string, got: string)

  // ----- the filter of `_find_message_containing_text` -----

  /** A message text qualifies when it contains the search text and is at least
      `minLengthDelta` characters longer. */
  predicate Qualifies(text: string, search: string, minLengthDelta: int)
    ensures Qualifies(text, search, minLengthDelta) ==> |search| <= |text|
  {
    && Contains(text, search)
    && (ContainsLength(text, search); |text| >= |search| + minLengthDelta)
  }

  /** The qualifying texts, in document order. */
  function QualifyingMessages(texts: seq<string>, search: string, minLengthDelta: int): (msgs: seq<string>)
    ensures |msgs| <= |texts|
    ensures forall t :: t in msgs ==> Qualifies(t, search, minLengthDelta)
  {
    if texts == [] then []
    else
      var last := texts[|texts| - 1];
      QualifyingMessages(texts[..|texts| - 1], search, minLengthDelta) +
        (if Qualifies(last, search, minLengthDelta) then [last] else [])
  }

  /** The qualifying texts are exactly the texts that qualify, and none is missing. */
  lemma {:induction false} QualifyingMessagesMembers(texts: seq<string>, search: string, delta: int)
    ensures forall t :: t in QualifyingMessages(texts, search, delta) <==>
                        t in texts && Qualifies(t, search, delta)
  {
    if texts != [] {
      var init := texts[..|texts| - 1];
      QualifyingMessagesMembers(init, search, delta);
      assert texts == init + [texts[|texts| - 1]];
    }
  }

  /** Every qualifying message contains the search text; the list is empty exactly
      when no text qualifies. */
  lemma QualifyingMessagesEmpty(texts: seq<string>, search: string, delta: int)
    ensures forall t :: t in QualifyingMessages(texts, search, delta) ==> Contains(t, search)
    ensures QualifyingMessages(texts, search, delta) == [] <==>
            forall i :: 0 <= i < |texts| ==> !Qualifies(texts[i], search, delta)
  {
    QualifyingMessagesMembers(texts, search, delta);
    var q := QualifyingMessages(texts, search, delta);
    if q != [] {
      assert q[0] in q;
    }
  }

  /** With the default delta of 1 a text qualifies exactly when it contains the
      search text and is not the search text itself. */
  lemma DefaultDeltaExcludesExactText(text: string, search: string)
    ensures Qualifies(text, search, DefaultMinLengthDelta) <==> Contains(text, search) && text != search
  {
    if Contains(text, search) {
      ContainsLength(text, search);
    }
  }

  /** What the loop of `_find_message_containing_text` knows after looking at the
      first `i` elements: the texts `messages` collected so far are the qualifying
      ones, one position in `found` per text, and the first position is the first
      qualifying element. */
  ghost predicate Scanned(elements: seq<string>, search: string, delta: int, i: nat,
                          found: seq<nat>, messages: seq<string>)
  {
    && i <= |elements|
    && messages == QualifyingMessages(elements[..i], search, delta)
    && |found| == |messages|
    && (found == [] ==> forall j :: 0 <= j < i ==> !Qualifies(elements[j], search, delta))
    && (found != [] ==>
          found[0] < i && elements[found[0]] == messages[0] &&
          Qualifies(elements[found[0]], search, delta) &&
          forall j :: 0 <= j < found[0] ==> !Qualifies(elements[j], search, delta))
  }

  /** Looking at one more element keeps `Scanned`. */
  lemma ScanStep(elements: seq<string>, search: string, delta: int, i: nat,
                 found: seq<nat>, messages: seq<string>)
    requires i < |elements| && Scanned(elements, search, delta, i, found, messages)
    ensures var hit := Qualifies(elements[i], search, delta);
            Scanned(elements, search, delta, i + 1,
                    if hit then found + [i] else found,
                    if hit then messages + [elements[i]] else messages)
  {
    assert elements[..i + 1][..i] == elements[..i];
  }

  /** Once every element is looked at, the collected texts are the qualifying
      messages and the first position is the first qualifying element. */
  lemma ScanDone(elements: seq<string>, search: string, delta: int,
                 found: seq<nat>, messages: seq<string>)
    requires Scanned(elements, search, delta, |elements|, found, messages)
    ensures messages == QualifyingMessages(elements, search, delta)
    ensures found == [] <==> messages == []
    ensures found != [] ==>
              found[0] < |elements| && elements[found[0]] == messages[0] &&
              Qualifies(elements[found[0]], search, delta) &&
              forall j :: 0 <= j < found[0] ==> !Qualifies(elements[j], search, delta)
  {
    assert elements[..|elements|] == elements;
  }

  // ----- the search of `_find_matching_text_in_messages` -----

  /** A strong text matches the target when the two are equal or one contains the other. */
  predicate Matches(text: string, target: string)
    ensures Matches(text, target) <==> Contains(target, text) || Contains(text, target)
  {
    text == target || Contains(target, text) || Contains(text, target)
  }

  /** The first strong text that matches, if any. */
  function FirstMatch(texts: seq<string>, target: string): (found: Option<string>)
    ensures found.Some? ==> found.value in texts && Matches(found.value, target)
  {
    if texts == [] then None
    else if Matches(texts[0], target) then Some(texts[0])
    else FirstMatch(texts[1..], target)
  }

  /** FirstMatch returns the text at the first matching position. */
  lemma {:induction false} FirstMatchAt(texts: seq<string>, target: string, i: nat)
    requires i < |texts| && Matches(texts[i], target)
    requires forall j :: 0 <= j < i ==> !Matches(texts[j], target)
    ensures FirstMatch(texts, target) == Some(texts[i])
  {
    if i > 0 {
      FirstMatchAt(texts[1..], target, i - 1);
    }
  }

  /** FirstMatch is None exactly when no text matches. */
  lemma {:induction false} FirstMatchNone(texts: seq<string>, target: string)
    ensures FirstMatch(texts, target) == None <==>
            forall j :: 0 <= j < |texts| ==> !Matches(texts[j], target)
  {
    if texts != [] {
      FirstMatchNone(texts[1..], target);
      assert forall j :: 1 <= j < |texts| ==> texts[j] == texts[1..][j - 1];
    }
  }

  /** What FirstMatch returns is a member of the list that matches, and no earlier
      member matches. */
  lemma {:induction false} FirstMatchSound(texts: seq<string>, target: string)
    requires FirstMatch(texts, target).Some?
    ensures exists i :: 0 <= i < |texts| && texts[i] == FirstMatch(texts, target).value &&
                        Matches(texts[i], target) &&
                        forall j :: 0 <= j < i ==> !Matches(texts[j], target)
  {
    if !Matches(texts[0], target) {
      FirstMatchSound(texts[1..], target);
      var i :| 0 <= i < |texts[1..]| && texts[1..][i] == FirstMatch(texts, target).value &&
               Matches(texts[1..][i], target) &&
               forall j :: 0 <= j < i ==> !Matches(texts[1..][j], target);
      assert texts[i + 1] == texts[1..][i];
      assert forall j :: 1 <= j < i + 1 ==> texts[j] == texts[1..][j - 1];
    } else {
      assert texts[0] == FirstMatch(texts, target).value;
    }
  }

  /** An empty strong text matches every target. */
  lemma EmptyTextMatchesEverything(target: string)
    ensures Matches("", target)
  {
    assert IsPrefix("", target);
  }

  // ----- the checks, as functions of the stored snapshot and the page's texts -----

  /** `should_be_success_message`: a message (seen by the wait) must contain the
      stored name and be longer than it. */
  function SuccessMessageCheck(productData: map<string, string>, messagesAppeared: bool,
                               messageTexts: seq<string>): (outcome: Outcome)
    ensures outcome.KeyError? <==> "name" !in productData
    ensures !outcome.Timeout?
    ensures outcome.Failed? ==>
              "name" in productData && outcome.reason.expected == productData["name"] &&
              (outcome.reason.NoMessagesAtAll? <==> !messagesAppeared)
  {
    if "name" !in productData then KeyError("name")
    else
      var name := productData["name"];
      if !messagesAppeared then Failed(NoMessagesAtAll(name))
      else if QualifyingMessages(messageTexts, name, DefaultMinLengthDelta) == [] then Failed(MessageNotFound(name))
      else Pass
  }

  /** `should_show_basket_total_message`: a message must contain the price read
      from the page now. */
  function BasketTotalMessageCheck(livePrice: Option<string>, messageTexts: seq<string>): (outcome: Outcome)
    ensures outcome.Timeout? <==> livePrice.None?
    ensures !outcome.KeyError?
    ensures outcome.Failed? ==> livePrice.Some? && outcome.reason == MessageNotFound(livePrice.value)
  {
    match livePrice
    case None => Timeout("price")
    case Some(price) =>
      if QualifyingMessages(messageTexts, price, DefaultMinLengthDelta) == [] then Failed(MessageNotFound(price))
      else Pass
  }

  /** `should_have_correct_product_name_in_message_box` (key "name") and
      `should_have_correct_price_in_message_box` (key "price"): the first strong
      text that matches the stored value must equal it. */
  function ValueInMessageBoxCheck(productData: map<string, string>, key: string,
                                  strongTexts: seq<string>): (outcome: Outcome)
    ensures outcome.KeyError? <==> key !in productData
    ensures !outcome.Timeout?
    ensures outcome.Failed? ==> key in productData && outcome.reason.expected == productData[key]
    ensures outcome.Failed? && outcome.reason.Mismatch? ==>
              outcome.reason.got in strongTexts && outcome.reason.got != outcome.reason.expected &&
              Matches(outcome.reason.got, outcome.reason.expected)
  {
    if key !in productData then KeyError(key)
    else
      var expected := productData[key];
      match FirstMatch(strongTexts, expected)
      case None => Failed(NotFoundInMessages(expected))
      case Some(found) => if found == expected then Pass else Failed(Mismatch(expected, found))
  }

  /** The success-message check passes exactly when the name is stored, the wait saw
      messages, and some message properly contains the stored name. */
  lemma SuccessMessagePassIff(productData: map<string, string>, appeared: bool, texts: seq<string>)
    ensures SuccessMessageCheck(productData, appeared, texts) == Pass <==>
            "name" in productData && appeared &&
            exists i :: 0 <= i < |texts| && Contains(texts[i], productData["name"]) &&
                        texts[i] != productData["name"]
  {
    if "name" in productData {
      var name := productData["name"];
      QualifyingMessagesEmpty(texts, name, DefaultMinLengthDelta);
      forall i | 0 <= i < |texts|
        ensures Qualifies(texts[i], name, DefaultMinLengthDelta) <==> Contains(texts[i], name) && texts[i] != name
      {
        DefaultDeltaExcludesExactText(texts[i], name);
      }
    }
  }

  /** The basket-total check passes exactly when the live price is read and some
      message properly contains it. */
  lemma BasketTotalMessagePassIff(livePrice: Option<string>, texts: seq<string>)
    ensures BasketTotalMessageCheck(livePrice, texts) == Pass <==>
            livePrice.Some? &&
            exists i :: 0 <= i < |texts| && Contains(texts[i], livePrice.value) &&
                        texts[i] != livePrice.value
  {
    if livePrice.Some? {
      var price := livePrice.value;
      QualifyingMessagesEmpty(texts, price, DefaultMinLengthDelta);
      forall i | 0 <= i < |texts|
        ensures Qualifies(texts[i], price, DefaultMinLengthDelta) <==> Contains(texts[i], price) && texts[i] != price
      {
        DefaultDeltaExcludesExactText(texts[i], price);
      }
    }
  }

  /** The name/price check passes exactly when the value is stored and the first
      matching strong text is the value itself. */
  lemma ValueInMessageBoxPassIff(productData: map<string, string>, key: string, texts: seq<string>)
    ensures ValueInMessageBoxCheck(productData, key, texts) == Pass <==>
            key in productData &&
            exists i :: 0 <= i < |texts| && texts[i] == productData[key] &&
                        forall j :: 0 <= j < i ==> !Matches(texts[j], productData[key])
  {
    if key in productData {
      var v := productData[key];
      if ValueInMessageBoxCheck(productData, key, texts) == Pass {
        FirstMatchSound(texts, v);
      }
      if exists i :: 0 <= i < |texts| && texts[i] == v && forall j :: 0 <= j < i ==> !Matches(texts[j], v) {
        var i :| 0 <= i < |texts| && texts[i] == v && forall j :: 0 <= j < i ==> !Matches(texts[j], v);
        assert Matches(texts[i], v);
        FirstMatchAt(texts, v, i);
      }
    }
  }

  /** A strong text that merely contains, or is contained in, the stored value and
      comes before the exact one makes the check fail, reporting that text. */
  lemma DecoyBeforeExactFails(productData: map<string, string>, key: string, texts: seq<string>, i: nat)
    requires key in productData && i < |texts|
    requires texts[i] != productData[key] && Matches(texts[i], productData[key])
    requires forall j :: 0 <= j < i ==> !Matches(texts[j], productData[key])
    ensures ValueInMessageBoxCheck(productData, key, texts) == Failed(Mismatch(productData[key], texts[i]))
  {
    FirstMatchAt(texts, productData[key], i);
  }

  /** The shipped names: the success message of "Coders at Work" passes the
      success-message check, and a strong text "Coders at Work book" fails the name
      check even when the exact name follows it. */
  lemma CodersAtWorkScenario()
    ensures SuccessMessageCheck(map["name" := "Coders at Work", "price" := "£19.99"], true,
                                ["Coders at Work has been added to your basket."]) == Pass
    ensures ValueInMessageBoxCheck(map["name" := "Coders at Work", "price" := "£19.99"], "name",
                                   ["Coders at Work book", "Coders at Work"]) ==
            Failed(Mismatch("Coders at Work", "Coders at Work book"))
  {
    var pd := map["name" := "Coders at Work", "price" := "£19.99"];
    var msg := "Coders at Work has been added to your basket.";
    assert IsPrefix("Coders at Work", msg);
    assert Qualifies(msg, "Coders at Work", DefaultMinLengthDelta);
    assert [msg][..0] == [];
    assert QualifyingMessages([msg], "Coders at Work", DefaultMinLengthDelta) == [msg];
    assert IsPrefix("Coders at Work", "Coders at Work book");
    DecoyBeforeExactFails(pd, "name", ["Coders at Work book", "Coders at Work"], 0);
  }

  // ----- the page object -----

  class ProductPage {
    const url: string
    /** The snapshot of name and price read by `open`. */
    var productData: map<string, string>

    constructor (url: string)
      ensures this.url == url && productData == map[]
    {
      this.url := url;
      productData := map[];
    }

    /** `open`: navigates to `url` (not modelled) and stores the name and price read
        then; a wait that gives up leaves the snapshot as it was. */
    method Open(nameRead: Option<string>, priceRead: Option<string>) returns (outcome: Outcome)
      modifies this
      ensures nameRead.None? ==> outcome == Timeout("name") && productData == old(productData)
      ensures nameRead.Some? && priceRead.None? ==> outcome == Timeout("price") && productData == old(productData)
      ensures nameRead.Some? && priceRead.Some? ==>
                outcome == Pass &&
                productData == map["name" := nameRead.value, "price" := priceRead.value]
    {
      outcome := UpdateProductData(nameRead, priceRead);
    }

    /** `_update_product_data`: reads the name, then the price, then replaces the snapshot. */
    method UpdateProductData(nameRead: Option<string>, priceRead: Option<string>) returns (outcome: Outcome)
      modifies this
      ensures nameRead.None? ==> outcome == Timeout("name") && productData == old(productData)
      ensures nameRead.Some? && priceRead.None? ==> outcome == Timeout("price") && productData == old(productData)
      ensures nameRead.Some? && priceRead.Some? ==>
                outcome == Pass &&
                productData == map["name" := nameRead.value, "price" := priceRead.value]
    {
      if nameRead.None? {
        return Timeout("name");
      }
      if priceRead.None? {
        return Timeout("price");
      }
      productData := map["name" := nameRead.value, "price" := priceRead.value];
      outcome := Pass;
    }

    /** `_find_message_containing_text`: the first qualifying element (by position) and
        every qualifying text, in order. `expectMultiple` only decides whether a
        warning would be printed. */
    method FindMessageContainingText(elements: seq<string>, searchText: string,
                                     minLengthDelta: int := DefaultMinLengthDelta,
                                     expectMultiple: bool := false)
      returns (element: Option<nat>, messages: seq<string>)
      ensures messages == QualifyingMessages(elements, searchText, minLengthDelta)
      ensures element.None? <==> messages == []
      ensures element.Some? ==>
                element.value < |elements| && elements[element.value] == messages[0] &&
                Qualifies(elements[element.value], searchText, minLengthDelta) &&
                forall j :: 0 <= j < element.value ==> !Qualifies(elements[j], searchText, minLengthDelta)
    {
      var foundElements: seq<nat> := [];
      var foundMessages: seq<string> := [];
      for i := 0 to |elements|
        invariant Scanned(elements, searchText, minLengthDelta, i, foundElements, foundMessages)
      {
        ScanStep(elements, searchText, minLengthDelta, i, foundElements, foundMessages);
        var fullText := elements[i];
        if Contains(fullText, searchText) && |fullText| >= |searchText| + minLengthDelta {
          foundElements := foundElements + [i];
          foundMessages := foundMessages + [fullText];
        }
      }
      ScanDone(elements, searchText, minLengthDelta, foundElements, foundMessages);
      if foundElements == [] {
        return None, [];
      } else if |foundElements| == 1 {
        return Some(foundElements[0]), foundMessages;
      } else if expectMultiple {
        return Some(foundElements[0]), foundMessages;
      } else {
        return Some(foundElements[0]), foundMessages;
      }
    }

    /** `_find_matching_text_in_messages`: the first strong text equal to, containing,
        or contained in the target. */
    method FindMatchingTextInMessages(strongTexts: seq<string>, targetText: string)
      returns (found: Option<string>)
      ensures found == FirstMatch(strongTexts, targetText)
      ensures found.None? <==> forall j :: 0 <= j < |strongTexts| ==> !Matches(strongTexts[j], targetText)
      ensures found.Some? ==> found.value in strongTexts && Matches(found.value, targetText)
    {
      for i := 0 to |strongTexts|
        invariant forall j :: 0 <= j < i ==> !Matches(strongTexts[j], targetText)
      {
        var text := strongTexts[i];
        if text == targetText || Contains(targetText, text) || Contains(text, targetText) {
          FirstMatchAt(strongTexts, targetText, i);
          return Some(text);
        }
      }
      FirstMatchNone(strongTexts, targetText);
      return None;
    }

    /** `should_be_success_message`, against the stored name. */
    method ShouldBeSuccessMessage(messagesAppeared: bool, messageTexts: seq<string>)
      returns (outcome: Outcome)
      ensures outcome == SuccessMessageCheck(productData, messagesAppeared, messageTexts)
    {
      if "name" !in productData {
        return KeyError("name");
      }
      var productName := productData["name"];
      if !messagesAppeared {
        return Failed(NoMessagesAtAll(productName));
      }
      var messageElement, allMessages := FindMessageContainingText(messageTexts, productName, DefaultMinLengthDelta, false);
      if messageElement.None? {
        return Failed(MessageNotFound(productName));
      }
      outcome := Pass;
    }

    /** `should_show_basket_total_message`: reads the price from the page again. */
    method ShouldShowBasketTotalMessage(livePrice: Option<string>, messageTexts: seq<string>)
      returns (outcome: Outcome)
      ensures outcome == BasketTotalMessageCheck(livePrice, messageTexts)
    {
      if livePrice.None? {
        return Timeout("price");
      }
      var productPrice := livePrice.value;
      var messageElement, allMessages := FindMessageContainingText(messageTexts, productPrice, DefaultMinLengthDelta, false);
      if messageElement.None? {
        return Failed(MessageNotFound(productPrice));
      }
      outcome := Pass;
    }

    /** The two exact-equality checks share one body, keyed by "name" or "price". */
    method ShouldHaveCorrectValueInMessageBox(key: string, strongTexts: seq<string>)
      returns (outcome: Outcome)
      ensures outcome == ValueInMessageBoxCheck(productData, key, strongTexts)
    {
      if key !in productData {
        return KeyError(key);
      }
      var expected := productData[key];
      var foundText := FindMatchingTextInMessages(strongTexts, expected);
      if foundText.None? {
        return Failed(NotFoundInMessages(expected));
      }
      if expected != foundText.value {
        return Failed(Mismatch(expected, foundText.value));
      }
      outcome := Pass;
    }

    method ShouldHaveCorrectProductNameInMessageBox(strongTexts: seq<string>) returns (outcome: Outcome)
      ensures outcome == ValueInMessageBoxCheck(productData, "name", strongTexts)
    {
      outcome := ShouldHaveCorrectValueInMessageBox("name", strongTexts);
    }

    method ShouldHaveCorrectPriceInMessageBox(strongTexts: seq<string>) returns (outcome: Outcome)
      ensures outcome == ValueInMessageBoxCheck(productData, "price", strongTexts)
    {
      outcome := ShouldHaveCorrectValueInMessageBox("price", strongTexts);
    }
  }

  /** After `open` the checks compare against the texts read at that moment, whatever
      the strong texts are later. */
  method OpenThenCheckName(url: string, name: string, price: string, strongTexts: seq<string>)
    returns (outcome: Outcome)
    ensures outcome == Pass <==>
            exists i :: 0 <= i < |strongTexts| && strongTexts[i] == name &&
                        forall j :: 0 <= j < i ==> !Matches(strongTexts[j], name)
  {
    var page := new ProductPage(url);
    var openOutcome := page.Open(Some(name), Some(price));
    outcome := page.ShouldHaveCorrectProductNameInMessageBox(strongTexts);
    ValueInMessageBoxPassIff(page.productData, "name", strongTexts);
  }
}
