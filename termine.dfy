/**
 * `sendTermine` (index.js:250-291): turns the event records fetched from the
 * club's API into one generic-template message holding at most five list
 * entries. Handing the message to the Send API is not modelled; the method
 * returns the message it would hand over.
 */
module Termine {
  import opened Wrappers

  /** One event record ("Termin") as delivered by the events API. */
  datatype Termin = Termin(title: string, date: string, url: string, image: Option<string>)

  /** A button of a list entry. */
  datatype Button = Button(kind: string, url: string, title: string)

  /** One list entry; `imageUrl` is `None` when the entry has no `image_url` field at all. */
  datatype Entry = Entry(title: string, subtitle: string, itemUrl: string,
                         buttons: seq<Button>, imageUrl: Option<string>)

  /** The outgoing message: recipient and a template payload of the given type. */
  datatype MessageData = MessageData(recipientId: string, templateType: string, elements: seq<Entry>)

  /** Only the first `MaxEntries` records are turned into entries. */
  const MaxEntries: nat := 5
  const ButtonKind: string := "web_url"
  const ButtonTitle: string := "Mehr Infos"
  const TemplateType: string := "generic"

  /** The entry built from one record. */
  function EntryOf(t: Termin): Entry {
    Entry(t.title, t.date, t.url, [Button(ButtonKind, t.url, ButtonTitle)], t.image)
  }

  /**
   * The entries produced by visiting `termine` in order, the record at index
   * `i` contributing one entry when `i < MaxEntries` and nothing otherwise.
   */
  function Entries(termine: seq<Termin>): seq<Entry> {
    if termine == [] then []
    else
      var last := |termine| - 1;
      Entries(termine[..last]) + (if last < MaxEntries then [EntryOf(termine[last])] else [])
  }

  function Min(a: nat, b: nat): nat {
    if a < b then a else b
  }

  /**
   * `sendTermine`: the `forEach` visits every record; the index guard keeps
   * only the first five, each pushed onto `elements` in turn.
   */
  method SendTermine(recipientId: string, termine: seq<Termin>) returns (data: MessageData)
    ensures data.recipientId == recipientId && data.templateType == TemplateType
    ensures data.elements == Entries(termine)
  {
    var elements: seq<Entry> := [];
    for index := 0 to |termine|
      invariant elements == Entries(termine[..index])
    {
      assert termine[..index + 1][..index] == termine[..index];
      if index < MaxEntries {
        var termin := termine[index];
        var entry := Entry(termin.title, termin.date, termin.url,
                           [Button(ButtonKind, termin.url, ButtonTitle)], None);
        if termin.image.Some? {
          entry := entry.(imageUrl := Some(termin.image.value));
        }
        elements := elements + [entry];
      }
    }
    assert termine[..|termine|] == termine;
    data := MessageData(recipientId, TemplateType, elements);
  }

  /** Exactly min(5, |termine|) entries: fewer records give only those, with no padding. */
  lemma {:induction false} EntriesLength(termine: seq<Termin>)
    ensures |Entries(termine)| == Min(MaxEntries, |termine|)
  {
    if termine != [] {
      EntriesLength(termine[..|termine| - 1]);
    }
  }

  /** Entry `i` comes from record `i`, so the order of the records is kept. */
  lemma {:induction false} EntriesAt(termine: seq<Termin>, i: nat)
    requires i < Min(MaxEntries, |termine|)
    ensures |Entries(termine)| > i && Entries(termine)[i] == EntryOf(termine[i])
  {
    var last := |termine| - 1;
    EntriesLength(termine[..last]);
    if i < last {
      EntriesAt(termine[..last], i);
    }
  }

  /**
   * Each entry copies title, date and url of its record, carries exactly one
   * "Mehr Infos" button linking to the record's url, and has an image url
   * exactly when the record has an image, equal to it.
   */
  lemma EntryFields(termine: seq<Termin>, i: nat)
    requires i < Min(MaxEntries, |termine|)
    ensures |Entries(termine)| > i
    ensures Entries(termine)[i].title == termine[i].title
    ensures Entries(termine)[i].subtitle == termine[i].date
    ensures Entries(termine)[i].itemUrl == termine[i].url
    ensures Entries(termine)[i].buttons == [Button("web_url", termine[i].url, "Mehr Infos")]
    ensures Entries(termine)[i].imageUrl.Some? <==> termine[i].image.Some?
    ensures termine[i].image.Some? ==> Entries(termine)[i].imageUrl.value == termine[i].image.value
  {
    EntriesAt(termine, i);
  }

  /** Records after the fifth have no influence on the message. */
  lemma {:induction false} EntriesIgnoreTail(termine: seq<Termin>, more: seq<Termin>)
    requires |termine| >= MaxEntries
    ensures Entries(termine + more) == Entries(termine)
  {
    if more != [] {
      var all := termine + more;
      var last := |all| - 1;
      assert all[..last] == termine + more[..|more| - 1];
      EntriesIgnoreTail(termine, more[..|more| - 1]);
    } else {
      assert termine + more == termine;
    }
  }
}
