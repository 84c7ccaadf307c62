/**
 * The POST `/webhook` handler (index.js:50-83): for a page subscription it
 * visits every messaging event of every batched page entry, routes it by the
 * first field present (optin, message, delivery, postback) and hands only
 * message events to `receivedMessage`; then it acknowledges with status 200.
 * Signature verification, the logging and the replies themselves are not
 * modelled; each handled message is recorded with the groups that fired.
 */
module Webhook {
  import opened Wrappers
  import opened Classifier

  /** The `message` field of an event; `text` is absent for attachments and stickers. */
  datatype IncomingMessage = IncomingMessage(text: Option<string>)

  /** One messaging event; each boolean says whether that (truthy) field is present. */
  datatype MessagingEvent = MessagingEvent(senderId: string, optin: bool,
                                           message: Option<IncomingMessage>,
                                           delivery: bool, postback: bool)

  datatype PageEntry = PageEntry(id: string, time: int, messaging: seq<MessagingEvent>)

  datatype WebhookBody = WebhookBody(objectType: string, entry: seq<PageEntry>)

  /** Where the handler sends an event. */
  datatype Route = Authentication | ToReceivedMessage | DeliveryConfirmation | Postback | UnknownEvent

  /** One call of `receivedMessage`: who sent the message and which groups fired on it. */
  datatype Dispatch = Dispatch(senderId: string, fired: seq<Intent>)

  /**
   * The state of a batch after some of its events: still running, or
   * stopped because `receivedMessage` threw (a message without text makes
   * `message.text.toLowerCase()` fail), with the messages handled before.
   */
  datatype Progress = Running(dispatched: seq<Dispatch>) | Threw(dispatched: seq<Dispatch>)

  /** What the handler does with the request as a whole. */
  datatype Outcome =
    | NoResponse                            // not a page subscription: nothing is sent back
    | Acknowledged(dispatched: seq<Dispatch>) // status 200 after every event was visited
    | Aborted(dispatched: seq<Dispatch>)      // an exception left the handler before the 200

  /** The first present field decides, in the order optin, message, delivery, postback. */
  function RouteOf(e: MessagingEvent): (r: Route)
    ensures r == ToReceivedMessage <==> !e.optin && e.message.Some?
    ensures r == UnknownEvent <==> !e.optin && e.message.None? && !e.delivery && !e.postback
  {
    if e.optin then Authentication
    else if e.message.Some? then ToReceivedMessage
    else if e.delivery then DeliveryConfirmation
    else if e.postback then Postback
    else UnknownEvent
  }

  /** A message event whose `receivedMessage` call throws. */
  predicate Throws(e: MessagingEvent) {
    RouteOf(e) == ToReceivedMessage && e.message.value.text.None?
  }

  /** Handling one more event. */
  function Step(p: Progress, e: MessagingEvent): Progress {
    match p
    case Threw(_) => p
    case Running(d) =>
      if RouteOf(e) != ToReceivedMessage then p
      else match e.message.value.text
        case None => Threw(d)
        case Some(text) => Running(d + [Dispatch(e.senderId, Classify(text))])
  }

  /** Handling a sequence of events in order, as written. */
  function Process(events: seq<MessagingEvent>): Progress {
    if events == [] then Running([])
    else Step(Process(events[..|events| - 1]), events[|events| - 1])
  }

  /** The events of all page entries, entry by entry. */
  function AllEvents(entries: seq<PageEntry>): seq<MessagingEvent> {
    if entries == [] then [] else entries[0].messaging + AllEvents(entries[1..])
  }

  /** The outcome of a request, as written. */
  function Handle(body: WebhookBody): Outcome {
    if body.objectType != "page" then NoResponse
    else match Process(AllEvents(body.entry))
      case Running(d) => Acknowledged(d)
      case Threw(d) => Aborted(d)
  }

  /** The POST `/webhook` handler: two nested `forEach` loops, then the acknowledgement. */
  method HandleWebhook(body: WebhookBody) returns (outcome: Outcome)
    ensures outcome == Handle(body)
  {
    if body.objectType != "page" {
      return NoResponse;
    }
    var entries := body.entry;
    var dispatched: seq<Dispatch> := [];
    for i := 0 to |entries|
      invariant Process(AllEvents(entries[..i])) == Running(dispatched)
    {
      var events := entries[i].messaging;
      ghost var before := AllEvents(entries[..i]);
      assert before + events[..0] == before;
      for j := 0 to |events|
        invariant Process(before + events[..j]) == Running(dispatched)
      {
        var e := events[j];
        ProcessSnoc(before, events, j);
        if e.optin {
        } else if e.message.Some? {
          if e.message.value.text.None? {
            ThrowEndsBatch(entries, i, j);
            return Aborted(dispatched);
          }
          var fired := ReceivedMessage(e.message.value.text.value);
          dispatched := dispatched + [Dispatch(e.senderId, fired)];
        } else if e.delivery {
        } else if e.postback {
        } else {
        }
      }
      assert events[..|events|] == events;
      AllEventsSnoc(entries, i);
    }
    assert entries[..|entries|] == entries;
    outcome := Acknowledged(dispatched);
  }

  /** Handling the events up to `events[j]` is handling those before it, then `events[j]`. */
  lemma ProcessSnoc(before: seq<MessagingEvent>, events: seq<MessagingEvent>, j: nat)
    requires j < |events|
    ensures Process(before + events[..j + 1]) == Step(Process(before + events[..j]), events[j])
  {
    var all := before + events[..j + 1];
    assert all[..|all| - 1] == before + events[..j];
  }

  /** A throw at event `j` of entry `i` decides the outcome of the whole batch. */
  lemma ThrowEndsBatch(entries: seq<PageEntry>, i: nat, j: nat)
    requires i < |entries| && j < |entries[i].messaging|
    requires Process(AllEvents(entries[..i]) + entries[i].messaging[..j + 1]).Threw?
    ensures Process(AllEvents(entries)) == Process(AllEvents(entries[..i]) + entries[i].messaging[..j + 1])
  {
    AllEventsSplit(entries, i, j);
    ThrewStays(AllEvents(entries[..i]) + entries[i].messaging[..j + 1],
               entries[i].messaging[j + 1..] + AllEvents(entries[i + 1..]));
  }

  lemma {:induction false} AllEventsAppend(a: seq<PageEntry>, b: seq<PageEntry>)
    ensures AllEvents(a + b) == AllEvents(a) + AllEvents(b)
  {
    if a != [] {
      assert (a + b)[1..] == a[1..] + b;
      AllEventsAppend(a[1..], b);
    } else {
      assert a + b == b;
    }
  }

  /** Visiting one more page entry appends its events. */
  lemma AllEventsSnoc(entries: seq<PageEntry>, i: nat)
    requires i < |entries|
    ensures AllEvents(entries[..i + 1]) == AllEvents(entries[..i]) + entries[i].messaging
  {
    assert entries[..i + 1] == entries[..i] + [entries[i]];
    AllEventsAppend(entries[..i], [entries[i]]);
    assert AllEvents([entries[i]]) == entries[i].messaging + AllEvents([]);
  }

  /** The events of a batch, split just after event `j` of entry `i`. */
  lemma AllEventsSplit(entries: seq<PageEntry>, i: nat, j: nat)
    requires i < |entries| && j < |entries[i].messaging|
    ensures AllEvents(entries) ==
      (AllEvents(entries[..i]) + entries[i].messaging[..j + 1]) +
      (entries[i].messaging[j + 1..] + AllEvents(entries[i + 1..]))
  {
    var m := entries[i].messaging;
    var head, rest := AllEvents(entries[..i]), AllEvents(entries[i + 1..]);
    assert entries == entries[..i + 1] + entries[i + 1..];
    AllEventsAppend(entries[..i + 1], entries[i + 1..]);
    AllEventsSnoc(entries, i);
    assert AllEvents(entries) == head + m + rest;
    assert m == m[..j + 1] + m[j + 1..];
    assert head + m + rest == (head + m[..j + 1]) + (m[j + 1..] + rest);
  }

  /** Once `receivedMessage` has thrown, no later event of the batch is handled. */
  lemma {:induction false} ThrewStays(events: seq<MessagingEvent>, later: seq<MessagingEvent>)
    requires Process(events).Threw?
    ensures Process(events + later) == Process(events)
  {
    if later == [] {
      assert events + later == events;
    } else {
      var all := events + later;
      assert all[..|all| - 1] == events + later[..|later| - 1];
      ThrewStays(events, later[..|later| - 1]);
    }
  }

  /** A batch runs to the end exactly when none of its message events lacks text. */
  lemma {:induction false} ProcessRunningIff(events: seq<MessagingEvent>)
    ensures Process(events).Running? <==> forall k :: 0 <= k < |events| ==> !Throws(events[k])
  {
    if events != [] {
      var n := |events| - 1;
      ProcessRunningIff(events[..n]);
      assert forall k :: 0 <= k < n ==> events[..n][k] == events[k];
    }
  }

  /**
   * The intended behaviour: every message event that carries text reaches
   * the classifier, in order, and a message without text is passed over
   * without affecting the others.
   */
  function ProcessTolerant(events: seq<MessagingEvent>): seq<Dispatch> {
    if events == [] then []
    else
      var e := events[|events| - 1];
      ProcessTolerant(events[..|events| - 1]) +
        (if RouteOf(e) == ToReceivedMessage && e.message.value.text.Some?
         then [Dispatch(e.senderId, Classify(e.message.value.text.value))] else [])
  }

  /** Tolerant handling of a batch is the handling of its parts, one after the other. */
  lemma {:induction false} ProcessTolerantAppend(a: seq<MessagingEvent>, b: seq<MessagingEvent>)
    ensures ProcessTolerant(a + b) == ProcessTolerant(a) + ProcessTolerant(b)
  {
    if b == [] {
      assert a + b == a;
    } else {
      var all := a + b;
      assert all[..|all| - 1] == a + b[..|b| - 1];
      ProcessTolerantAppend(a, b[..|b| - 1]);
    }
  }

  /** Under tolerant handling every text message of the batch is classified, whatever surrounds it. */
  lemma ProcessTolerantHandlesEveryText(before: seq<MessagingEvent>, e: MessagingEvent,
                                        after: seq<MessagingEvent>, text: string)
    requires RouteOf(e) == ToReceivedMessage && e.message.value.text == Some(text)
    ensures Dispatch(e.senderId, Classify(text)) in ProcessTolerant(before + [e] + after)
  {
    ProcessTolerantAppend(before + [e], after);
    ProcessTolerantAppend(before, [e]);
    assert [e][..0] == [];
  }

  /** On a batch without textless messages the code as written and the tolerant handling agree. */
  lemma {:induction false} ProcessAgreesWithTolerant(events: seq<MessagingEvent>)
    requires Process(events).Running?
    ensures Process(events).dispatched == ProcessTolerant(events)
  {
    if events != [] {
      var n := |events| - 1;
      assert Process(events[..n]).Running?;
      ProcessAgreesWithTolerant(events[..n]);
    }
  }

  /**
   * As written, one attachment-only message aborts the batch: a later text
   * message from another user is never classified, and no 200 is sent.
   */
  lemma TextlessMessageAbortsBatch(later: string)
    ensures Handle(WebhookBody("page", [PageEntry("page", 0, [
              MessagingEvent("a", false, Some(IncomingMessage(None)), false, false),
              MessagingEvent("b", false, Some(IncomingMessage(Some(later))), false, false)])]))
            == Aborted([])
    ensures |ProcessTolerant([
              MessagingEvent("a", false, Some(IncomingMessage(None)), false, false),
              MessagingEvent("b", false, Some(IncomingMessage(Some(later))), false, false)])| == 1
  {
    var textless := MessagingEvent("a", false, Some(IncomingMessage(None)), false, false);
    var text := MessagingEvent("b", false, Some(IncomingMessage(Some(later))), false, false);
    var events := [textless, text];
    var entries := [PageEntry("page", 0, events)];
    assert entries[1..] == [];
    assert AllEvents(entries) == events + AllEvents([]);
    assert AllEvents(entries) == events;
    assert events[..1] == [textless];
    assert [textless][..0] == [];
    assert Process([textless]) == Step(Process([]), textless);
    assert Process([textless]) == Threw([]);
    assert Process(events) == Step(Process([textless]), text);
    assert Process(events) == Threw([]);
    assert ProcessTolerant([textless]) == ProcessTolerant([]) + [];
    assert ProcessTolerant(events) == ProcessTolerant([textless]) + [Dispatch("b", Classify(later))];
  }
}
