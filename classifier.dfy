/**
 * The classification part of `receivedMessage` (index.js:196-248): the text
 * is lower-cased once and then tested against three fixed keyword groups,
 * each independently, in a fixed order. What each group then fetches and
 * sends is not modelled; the result is the ordered list of groups that fire.
 */
module Classifier {
  import opened Text
  import opened Keywords

  /** The three keyword groups, in the order `receivedMessage` tests them. */
  datatype Intent = Greeting | Events | Weather

  const GreetingKeywords: seq<string> := ["hallo", "hi", "servus", "griazi", "guten tag"]
  const EventKeywords: seq<string> := ["termine", "veranstaltungen", "events", "geplant", "steht an"]
  const WeatherKeywords: seq<string> := ["wetter", "regnet", "sonnig", "warm", "kalt"]

  /** The order in which the groups are tested and fire. */
  const IntentOrder: seq<Intent> := [Greeting, Events, Weather]

  function KeywordsOf(intent: Intent): seq<string> {
    match intent
    case Greeting => GreetingKeywords
    case Events => EventKeywords
    case Weather => WeatherKeywords
  }

  function Rank(intent: Intent): nat {
    match intent
    case Greeting => 0
    case Events => 1
    case Weather => 2
  }

  /** The group fires on a lower-cased text that contains one of its keywords. */
  predicate Fires(intent: Intent, lowered: string) {
    MatchesAny(lowered, KeywordsOf(intent))
  }

  /** The groups of `candidates` that fire on `lowered`, in their given order. */
  function FiringAmong(candidates: seq<Intent>, lowered: string): (r: seq<Intent>)
    ensures |r| <= |candidates|
  {
    if candidates == [] then []
    else (if Fires(candidates[0], lowered) then [candidates[0]] else []) + FiringAmong(candidates[1..], lowered)
  }

  /** The groups that fire on an incoming message text, in the order they fire. */
  function Classify(text: string): seq<Intent> {
    FiringAmong(IntentOrder, Lower(text))
  }

  /** The three groups are tested one after the other, each on its own. */
  lemma ClassifyStepwise(text: string)
    ensures Classify(text) ==
      (if Fires(Greeting, Lower(text)) then [Greeting] else []) +
      (if Fires(Events, Lower(text)) then [Events] else []) +
      (if Fires(Weather, Lower(text)) then [Weather] else [])
  {
    var lowered := Lower(text);
    var g := if Fires(Greeting, lowered) then [Greeting] else [];
    var e := if Fires(Events, lowered) then [Events] else [];
    var w := if Fires(Weather, lowered) then [Weather] else [];
    assert [Weather][1..] == [];
    assert FiringAmong([Weather], lowered) == w;
    assert [Events, Weather][1..] == [Weather];
    assert FiringAmong([Events, Weather], lowered) == e + w;
    assert IntentOrder[1..] == [Events, Weather];
    assert FiringAmong(IntentOrder, lowered) == g + (e + w);
  }

  /**
   * `receivedMessage` on a message with text: lower-case it, then three
   * independent `if`s, none of which stops the others.
   */
  method ReceivedMessage(messageText: string) returns (fired: seq<Intent>)
    ensures fired == Classify(messageText)
  {
    ClassifyStepwise(messageText);
    var text := Lower(messageText);
    fired := [];
    var greeting := MatchesArray(text, GreetingKeywords);
    if greeting {
      fired := fired + [Greeting];
    }
    var events := MatchesArray(text, EventKeywords);
    if events {
      fired := fired + [Events];
    }
    var weather := MatchesArray(text, WeatherKeywords);
    if weather {
      fired := fired + [Weather];
    }
  }

  lemma {:induction false} FiringAmongMembers(candidates: seq<Intent>, lowered: string, intent: Intent)
    ensures intent in FiringAmong(candidates, lowered) <==> intent in candidates && Fires(intent, lowered)
  {
    if candidates != [] {
      FiringAmongMembers(candidates[1..], lowered, intent);
      assert candidates == [candidates[0]] + candidates[1..];
    }
  }

  /** A group is reported exactly when one of its keywords occurs in the lower-cased text. */
  lemma ClassifyIff(text: string, intent: Intent)
    ensures intent in Classify(text) <==> MatchesAny(Lower(text), KeywordsOf(intent))
  {
    FiringAmongMembers(IntentOrder, Lower(text), intent);
  }

  lemma {:induction false} FiringAmongOrdered(candidates: seq<Intent>, text: string)
    requires forall i, j :: 0 <= i < j < |candidates| ==> Rank(candidates[i]) < Rank(candidates[j])
    ensures forall i, j :: 0 <= i < j < |FiringAmong(candidates, text)| ==>
      Rank(FiringAmong(candidates, text)[i]) < Rank(FiringAmong(candidates, text)[j])
  {
    if candidates != [] {
      var rest := candidates[1..];
      FiringAmongOrdered(rest, text);
      forall x | x in FiringAmong(rest, text) ensures Rank(candidates[0]) < Rank(x) {
        FiringAmongMembers(rest, text, x);
      }
    }
  }

  /** Groups fire in the order greeting, events, weather, each at most once. */
  lemma ClassifyOrdered(text: string)
    ensures forall i, j :: 0 <= i < j < |Classify(text)| ==>
      Rank(Classify(text)[i]) < Rank(Classify(text)[j])
    ensures |Classify(text)| <= 3
  {
    FiringAmongOrdered(IntentOrder, Lower(text));
  }

  /** A message with no trigger of any group fires nothing, and only then. */
  lemma ClassifyEmptyIff(text: string)
    ensures Classify(text) == [] <==> forall intent :: !Fires(intent, Lower(text))
  {
    forall intent ensures intent in Classify(text) <==> Fires(intent, Lower(text)) {
      FiringAmongMembers(IntentOrder, Lower(text), intent);
    }
    if Classify(text) != [] {
      var first := Classify(text)[0];
      assert first in Classify(text);
      assert Fires(first, Lower(text));
    }
  }

  /** Changing the case of ASCII letters in the message never changes which groups fire. */
  lemma ClassifyCaseInsensitive(a: string, b: string)
    requires SameUpToCase(a, b)
    ensures Classify(a) == Classify(b)
  {
    LowerEqualIff(a, b);
  }

  /** Classifying the already lower-cased text gives the same groups. */
  lemma ClassifyLowered(text: string)
    ensures Classify(Lower(text)) == Classify(text)
  {
    LowerIdempotent(text);
  }

  /** Every group that fires on a text still fires on any longer text containing it. */
  lemma ClassifyWithin(text: string, p: string, q: string, intent: Intent)
    requires intent in Classify(text)
    ensures intent in Classify(p + text + q)
  {
    ClassifyIff(text, intent);
    ClassifyIff(p + text + q, intent);
    LowerAppend(p + text, q);
    LowerAppend(p, text);
    MatchesAnyWithin(Lower(text), KeywordsOf(intent), Lower(p), Lower(q));
  }

  /** The greeting keyword "hi" fires inside an unrelated word, such as "Schicht". */
  lemma GreetingInsideWord()
    ensures Greeting in Classify("Schicht")
  {
    var lowered := Lower("Schicht");
    assert lowered == "schicht";
    assert OccursAt(lowered, "hi", 2);
    assert "hi" in KeywordsOf(Greeting);
    ClassifyIff("Schicht", Greeting);
  }
}
