/** Rendering a subscription: one call per plugin, and one canonical document from what the plugins contribute. */
module SubscriptionRendering {
  import opened Outcomes
  import opened Texts

  /** The fragments a plugin contributes for a service. */
  datatype Contribution = Contribution(uris: seq<string>, mihomo: seq<string>, singBox: seq<string>)

  /** The lines and objects of the three formats, from which their bytes are encoded. */
  datatype Document = Document(uris: seq<string>, mihomo: seq<string>, singBox: seq<string>)

  /** The canonical form of a JSON object, None for anything else. */
  type Canonical = string -> Option<string>

  // ---------------------------------------------------------------------------------------------
  // Sorted sets of texts
  // ---------------------------------------------------------------------------------------------

  /** Strictly rising: sorted and without duplicates. */
  ghost predicate Rising(texts: seq<string>) {
    forall i, j | 0 <= i < j < |texts| :: OrderText(texts[i], texts[j]) < 0
  }

  function Inserted(texts: seq<string>, text: string): seq<string> {
    if texts == [] then [text]
    else if OrderText(text, texts[0]) < 0 then [text] + texts
    else if text == texts[0] then texts
    else [texts[0]] + Inserted(texts[1..], text)
  }

  /** Without duplicates, in order. */
  function Collected(texts: seq<string>): seq<string> {
    if texts == [] then [] else Inserted(Collected(texts[..|texts| - 1]), texts[|texts| - 1])
  }

  lemma {:induction false} InsertedHolds(texts: seq<string>, text: string, other: string)
    ensures other in Inserted(texts, text) <==> other in texts || other == text
  {
    if texts != [] && OrderText(text, texts[0]) >= 0 && text != texts[0] {
      InsertedHolds(texts[1..], text, other);
      assert texts == [texts[0]] + texts[1..];
    }
  }

  lemma {:induction false} InsertedIsRising(texts: seq<string>, text: string)
    requires Rising(texts)
    ensures Rising(Inserted(texts, text))
  {
    if texts != [] {
      OrderTextIsTotal(text, texts[0]);
      var rest := Inserted(texts[1..], text);
      if OrderText(text, texts[0]) < 0 {
        forall i | 0 <= i < |texts|
          ensures OrderText(text, texts[i]) < 0
        {
          RisingChain(text, texts[0], texts[i]);
        }
      } else if text != texts[0] {
        InsertedIsRising(texts[1..], text);
        forall i | 0 <= i < |rest|
          ensures OrderText(texts[0], rest[i]) < 0
        {
          assert rest[i] in rest;
          InsertedHolds(texts[1..], text, rest[i]);
        }
      }
    }
  }

  lemma RisingChain(a: string, b: string, c: string)
    requires OrderText(a, b) < 0 && (b == c || OrderText(b, c) < 0)
    ensures OrderText(a, c) < 0
  {
    if b != c {
      OrderTextIsTransitive(a, b, c);
      OrderTextIsTotal(a, c);
      OrderTextIsTotal(a, b);
    }
  }

  lemma {:induction false} CollectedIsTheSet(texts: seq<string>)
    ensures Rising(Collected(texts))
    ensures forall text :: text in Collected(texts) <==> text in texts
  {
    if texts != [] {
      var front, last := texts[..|texts| - 1], texts[|texts| - 1];
      CollectedIsTheSet(front);
      InsertedIsRising(Collected(front), last);
      forall text
        ensures text in Collected(texts) <==> text in texts
      {
        InsertedHolds(Collected(front), last, text);
        assert texts == front + [last];
      }
    }
  }

  /** A rising sequence is determined by its elements. */
  lemma {:induction false} RisingIsUnique(a: seq<string>, b: seq<string>)
    requires Rising(a) && Rising(b) && forall text :: text in a <==> text in b
    ensures a == b
  {
    if a == [] || b == [] {
      if a != [] {
        HasAnElement(a);
      }
      if b != [] {
        HasAnElement(b);
      }
    } else {
      FirstIsLowest(a, b);
      FirstIsLowest(b, a);
      OrderTextIsTotal(a[0], b[0]);
      forall text
        ensures text in a[1..] <==> text in b[1..]
      {
        RestHolds(a, text);
        RestHolds(b, text);
      }
      RisingIsUnique(a[1..], b[1..]);
      assert a == [a[0]] + a[1..] && b == [b[0]] + b[1..];
    }
  }

  lemma HasAnElement(texts: seq<string>)
    requires texts != []
    ensures exists text :: text in texts
  {
    assert texts[0] in texts;
  }

  lemma FirstIsLowest(a: seq<string>, b: seq<string>)
    requires a != [] && b != [] && Rising(a) && b[0] in a
    ensures OrderText(a[0], b[0]) <= 0
  {
    OrderTextIsTotal(a[0], b[0]);
    var i :| 0 <= i < |a| && a[i] == b[0];
  }

  lemma RestHolds(a: seq<string>, text: string)
    requires a != [] && Rising(a)
    ensures text in a[1..] <==> text in a && text != a[0]
  {
    OrderTextIsTotal(a[0], a[0]);
    assert a == [a[0]] + a[1..];
    assert forall i | 0 <= i < |a[1..]| :: OrderText(a[0], a[1..][i]) < 0;
  }

  // ---------------------------------------------------------------------------------------------
  // Aggregation
  // ---------------------------------------------------------------------------------------------

  function Bytes(texts: seq<string>): nat {
    if texts == [] then 0 else Bytes(texts[..|texts| - 1]) + |texts[|texts| - 1]|
  }

  function Uris(all: seq<Contribution>): seq<string> {
    if all == [] then [] else Uris(all[..|all| - 1]) + all[|all| - 1].uris
  }

  function Mihomos(all: seq<Contribution>): seq<string> {
    if all == [] then [] else Mihomos(all[..|all| - 1]) + all[|all| - 1].mihomo
  }

  function SingBoxes(all: seq<Contribution>): seq<string> {
    if all == [] then [] else SingBoxes(all[..|all| - 1]) + all[|all| - 1].singBox
  }

  function TotalBytes(all: seq<Contribution>): nat {
    if all == [] then 0
    else
      var last := all[|all| - 1];
      TotalBytes(all[..|all| - 1]) + Bytes(last.uris) + Bytes(last.mihomo) + Bytes(last.singBox)
  }

  predicate Objects(texts: seq<string>, canonical: Canonical) {
    forall i | 0 <= i < |texts| :: canonical(texts[i]).Some?
  }

  function Canonicals(texts: seq<string>, canonical: Canonical): (all: seq<string>)
    requires Objects(texts, canonical)
    ensures |all| == |texts| && forall i | 0 <= i < |texts| :: all[i] == canonical(texts[i]).value
  {
    if texts == [] then []
    else Canonicals(texts[..|texts| - 1], canonical) + [canonical(texts[|texts| - 1]).value]
  }

  predicate Aggregable(all: seq<Contribution>, canonical: Canonical, limit: nat) {
    TotalBytes(all) <= limit && Objects(Mihomos(all), canonical) && Objects(SingBoxes(all), canonical)
  }

  function Aggregated(all: seq<Contribution>, canonical: Canonical): Document
    requires Objects(Mihomos(all), canonical) && Objects(SingBoxes(all), canonical)
  {
    Document(Collected(Uris(all)), Collected(Canonicals(Mihomos(all), canonical)),
             Collected(Canonicals(SingBoxes(all), canonical)))
  }

  function Elements(texts: seq<string>): set<string> {
    set text | text in texts
  }

  lemma ElementsAppend(front: seq<string>, text: string)
    ensures Elements(front + [text]) == Elements(front) + {text}
  {
  }

  lemma BytesOfNothing()
    ensures Bytes([]) == 0
  {
  }

  lemma BytesAppend(front: seq<string>, text: string)
    ensures Bytes(front + [text]) == Bytes(front) + |text|
  {
    assert (front + [text])[..|front|] == front;
  }

  lemma {:induction false} BytesGrow(texts: seq<string>, upTo: nat)
    requires upTo <= |texts|
    ensures Bytes(texts[..upTo]) <= Bytes(texts)
  {
    if upTo < |texts| {
      var front := texts[..|texts| - 1];
      BytesGrow(front, upTo);
      assert front[..upTo] == texts[..upTo];
    } else {
      assert texts[..upTo] == texts;
    }
  }

  /** Adds lines to a set, counting their bytes, until the limit is passed. */
  method AddUris(texts: seq<string>, target: set<string>, total: nat, limit: nat)
    returns (ok: bool, collected: set<string>, bytes: nat)
    requires total <= limit
    ensures ok <==> total + Bytes(texts) <= limit
    ensures ok ==> collected == target + Elements(texts) && bytes == total + Bytes(texts)
  {
    collected, bytes := target, total;
    for index := 0 to |texts|
      invariant collected == target + Elements(texts[..index])
      invariant bytes == total + Bytes(texts[..index]) && bytes <= limit
    {
      assert texts[..index + 1] == texts[..index] + [texts[index]];
      BytesAppend(texts[..index], texts[index]);
      bytes := bytes + |texts[index]|;
      if bytes > limit {
        BytesGrow(texts, index + 1);
        return false, collected, bytes;
      }
      collected := collected + {texts[index]};
    }
    assert texts[..|texts|] == texts;
    ok := true;
  }

  /** Adds the canonical forms of objects to a set; a fragment that is no object fails too. */
  method AddObjects(texts: seq<string>, canonical: Canonical, target: set<string>, total: nat, limit: nat)
    returns (ok: bool, collected: set<string>, bytes: nat)
    requires total <= limit
    ensures ok <==> total + Bytes(texts) <= limit && Objects(texts, canonical)
    ensures ok ==> collected == target + Elements(Canonicals(texts, canonical)) && bytes == total + Bytes(texts)
  {
    hide Bytes;
    collected, bytes := target, total;
    BytesOfNothing();
    for index := 0 to |texts|
      invariant Objects(texts[..index], canonical)
      invariant collected == target + Elements(Canonicals(texts[..index], canonical))
      invariant bytes == total + Bytes(texts[..index]) && bytes <= limit
    {
      assert texts[..index + 1] == texts[..index] + [texts[index]];
      BytesAppend(texts[..index], texts[index]);
      bytes := bytes + |texts[index]|;
      if bytes > limit {
        BytesGrow(texts, index + 1);
        return false, collected, bytes;
      }
      var form := canonical(texts[index]);
      if form.None? {
        return false, collected, bytes;
      }
      CanonicalsAppend(texts[..index], texts[index], canonical);
      ElementsAppend(Canonicals(texts[..index], canonical), form.value);
      hide Elements;
      collected := collected + {form.value};
    }
    assert texts[..|texts|] == texts;
    ok := true;
  }

  lemma CanonicalsAppend(front: seq<string>, text: string, canonical: Canonical)
    requires Objects(front, canonical) && canonical(text).Some?
    ensures Objects(front + [text], canonical)
    ensures Canonicals(front + [text], canonical) == Canonicals(front, canonical) + [canonical(text).value]
  {
    assert (front + [text])[..|front|] == front;
  }

  ghost predicate Lowest(text: string, texts: set<string>) {
    text in texts && forall other | other in texts && other != text :: OrderText(text, other) < 0
  }

  lemma LowestExists(texts: set<string>) returns (lowest: string)
    requires |texts| > 0
    ensures Lowest(lowest, texts)
  {
    assert exists text :: text in texts by {
      assert (forall text :: text !in texts) ==> texts == {};
    }
    var some: string :| some in texts;
    var rest := texts - {some};
    assert texts == rest + {some};
    if |rest| == 0 {
      lowest := some;
    } else {
      lowest := LowestExists(rest);
      OrderTextIsTotal(lowest, some);
      if OrderText(some, lowest) < 0 {
        forall other | other in rest
          ensures OrderText(some, other) < 0
        {
          RisingChain(some, lowest, other);
        }
        lowest := some;
      }
    }
  }

  /** Sorts the keys of a set. */
  method SortTexts(texts: set<string>) returns (sorted: seq<string>)
    ensures Rising(sorted) && forall text :: text in sorted <==> text in texts
  {
    var rest := texts;
    sorted := [];
    while |rest| > 0
      invariant rest <= texts && Rising(sorted) && forall text :: text in sorted <==> text in texts - rest
      invariant forall i, text | 0 <= i < |sorted| && text in rest :: OrderText(sorted[i], text) < 0
      decreases |rest|
    {
      ghost var lowest := LowestExists(rest);
      assert lowest in rest && forall other | other in rest && other != lowest :: OrderText(lowest, other) < 0;
      var text: string :| text in rest && forall other | other in rest && other != text :: OrderText(text, other) < 0;
      sorted := sorted + [text];
      rest := rest - {text};
    }
  }

  /** Sorting the set of some texts is collecting them. */
  lemma SortedIsCollected(sorted: seq<string>, texts: seq<string>)
    requires Rising(sorted) && forall text :: text in sorted <==> text in texts
    ensures sorted == Collected(texts)
  {
    CollectedIsTheSet(texts);
    RisingIsUnique(sorted, Collected(texts));
  }

  // ---------------------------------------------------------------------------------------------
  // The document
  // ---------------------------------------------------------------------------------------------

  lemma Appending(front: seq<Contribution>, last: Contribution)
    ensures Uris(front + [last]) == Uris(front) + last.uris
    ensures Mihomos(front + [last]) == Mihomos(front) + last.mihomo
    ensures SingBoxes(front + [last]) == SingBoxes(front) + last.singBox
    ensures TotalBytes(front + [last]) == TotalBytes(front) + Bytes(last.uris) + Bytes(last.mihomo) + Bytes(last.singBox)
  {
    assert (front + [last])[..|front|] == front;
  }

  lemma {:induction false} TotalGrows(all: seq<Contribution>, upTo: nat)
    requires upTo <= |all|
    ensures TotalBytes(all[..upTo]) <= TotalBytes(all)
  {
    if upTo < |all| {
      var front := all[..|all| - 1];
      TotalGrows(front, upTo);
      assert front[..upTo] == all[..upTo];
    } else {
      assert all[..upTo] == all;
    }
  }

  lemma ObjectsSplit(a: seq<string>, b: seq<string>, canonical: Canonical)
    ensures Objects(a + b, canonical) <==> Objects(a, canonical) && Objects(b, canonical)
    ensures Objects(a + b, canonical) ==> Canonicals(a + b, canonical) == Canonicals(a, canonical) + Canonicals(b, canonical)
  {
    assert forall i | 0 <= i < |b| :: (a + b)[|a| + i] == b[i];
    assert forall i | 0 <= i < |a| :: (a + b)[i] == a[i];
  }

  lemma {:induction false} ObjectsGrow(all: seq<Contribution>, upTo: nat, canonical: Canonical)
    requires upTo <= |all| && Objects(Mihomos(all), canonical) && Objects(SingBoxes(all), canonical)
    ensures Objects(Mihomos(all[..upTo]), canonical) && Objects(SingBoxes(all[..upTo]), canonical)
  {
    if upTo < |all| {
      var front, last := all[..|all| - 1], all[|all| - 1];
      ObjectsSplit(Mihomos(front), last.mihomo, canonical);
      ObjectsSplit(SingBoxes(front), last.singBox, canonical);
      ObjectsGrow(front, upTo, canonical);
      assert front[..upTo] == all[..upTo];
    } else {
      assert all[..upTo] == all;
    }
  }

  /** What has been collected from some contributions. */
  ghost predicate Gathered(all: seq<Contribution>, canonical: Canonical, uris: set<string>, mihomo: set<string>,
                           singBox: set<string>, bytes: nat)
  {
    && Objects(Mihomos(all), canonical) && Objects(SingBoxes(all), canonical)
    && uris == Elements(Uris(all)) && bytes == TotalBytes(all)
    && mihomo == Elements(Canonicals(Mihomos(all), canonical)) && singBox == Elements(Canonicals(SingBoxes(all), canonical))
  }

  lemma ElementsSplit(a: seq<string>, b: seq<string>)
    ensures Elements(a + b) == Elements(a) + Elements(b)
  {
  }

  lemma GatheredAppend(front: seq<Contribution>, last: Contribution, canonical: Canonical, uris: set<string>,
                       mihomo: set<string>, singBox: set<string>, bytes: nat)
    requires Gathered(front, canonical, uris, mihomo, singBox, bytes)
    requires Objects(last.mihomo, canonical) && Objects(last.singBox, canonical)
    ensures Gathered(front + [last], canonical, uris + Elements(last.uris),
                     mihomo + Elements(Canonicals(last.mihomo, canonical)),
                     singBox + Elements(Canonicals(last.singBox, canonical)),
                     bytes + Bytes(last.uris) + Bytes(last.mihomo) + Bytes(last.singBox))
  {
    Appending(front, last);
    ObjectsSplit(Mihomos(front), last.mihomo, canonical);
    ObjectsSplit(SingBoxes(front), last.singBox, canonical);
    ElementsSplit(Uris(front), last.uris);
    ElementsSplit(Canonicals(Mihomos(front), canonical), Canonicals(last.mihomo, canonical));
    ElementsSplit(Canonicals(SingBoxes(front), canonical), Canonicals(last.singBox, canonical));
    hide Uris, Mihomos, SingBoxes, TotalBytes, Elements, Objects, Canonicals, Bytes;
  }

  /** A prefix that cannot be aggregated spoils the whole. */
  lemma NotAggregable(all: seq<Contribution>, index: nat, canonical: Canonical, limit: nat)
    requires index < |all|
    requires TotalBytes(all[..index]) + Bytes(all[index].uris) + Bytes(all[index].mihomo) + Bytes(all[index].singBox) > limit
          || !Objects(all[index].mihomo, canonical) || !Objects(all[index].singBox, canonical)
    ensures !Aggregable(all, canonical, limit)
  {
    assert all[..index + 1] == all[..index] + [all[index]];
    Appending(all[..index], all[index]);
    TotalGrows(all, index + 1);
    ObjectsSplit(Mihomos(all[..index]), all[index].mihomo, canonical);
    ObjectsSplit(SingBoxes(all[..index]), all[index].singBox, canonical);
    hide Uris, Mihomos, SingBoxes, TotalBytes, Objects, Canonicals, Bytes;
    if Objects(Mihomos(all), canonical) && Objects(SingBoxes(all), canonical) {
      ObjectsGrow(all, index + 1, canonical);
    }
  }

  /** Aggregates the contributions of all services into one document. */
  method AggregateSubscription(all: seq<Contribution>, canonical: Canonical, limit: nat) returns (document: Option<Document>)
    ensures document.Some? <==> Aggregable(all, canonical, limit)
    ensures document.Some? ==> document.value == Aggregated(all, canonical)
  {
    hide Objects, Canonicals, Uris, Mihomos, SingBoxes, TotalBytes, Bytes, Elements, Gathered;
    var uris, mihomo, singBox := {}, {}, {};
    var bytes: nat := 0;
    assert Gathered(all[..0], canonical, uris, mihomo, singBox, bytes) by {
      NothingGathered(canonical);
    }
    for index := 0 to |all|
      invariant Gathered(all[..index], canonical, uris, mihomo, singBox, bytes) && bytes <= limit
    {
      GatheredBytes(all[..index], canonical, uris, mihomo, singBox, bytes);
      var service := all[index];
      var ok;
      ghost var before := (uris, mihomo, singBox, bytes);
      ok, uris, bytes := AddUris(service.uris, uris, bytes, limit);
      if !ok {
        NotAggregable(all, index, canonical, limit);
        return None;
      }
      ok, mihomo, bytes := AddObjects(service.mihomo, canonical, mihomo, bytes, limit);
      if !ok {
        NotAggregable(all, index, canonical, limit);
        return None;
      }
      ok, singBox, bytes := AddObjects(service.singBox, canonical, singBox, bytes, limit);
      if !ok {
        NotAggregable(all, index, canonical, limit);
        return None;
      }
      GatheredAppend(all[..index], service, canonical, before.0, before.1, before.2, before.3);
      assert all[..index + 1] == all[..index] + [service];
    }
    assert all[..|all|] == all;
    var sortedUris := SortTexts(uris);
    var sortedMihomo := SortTexts(mihomo);
    var sortedSingBox := SortTexts(singBox);
    GatheredIsAggregated(all, canonical, uris, mihomo, singBox, bytes, Document(sortedUris, sortedMihomo, sortedSingBox));
    return Some(Document(sortedUris, sortedMihomo, sortedSingBox));
  }

  lemma NothingGathered(canonical: Canonical)
    ensures Gathered([], canonical, {}, {}, {}, 0)
  {
  }

  lemma GatheredBytes(all: seq<Contribution>, canonical: Canonical, uris: set<string>, mihomo: set<string>,
                      singBox: set<string>, bytes: nat)
    requires Gathered(all, canonical, uris, mihomo, singBox, bytes)
    ensures bytes == TotalBytes(all)
  {
  }

  ghost predicate Sorts(sorted: seq<string>, texts: set<string>) {
    Rising(sorted) && forall text :: text in sorted <==> text in texts
  }

  lemma GatheredIsAggregated(all: seq<Contribution>, canonical: Canonical, uris: set<string>, mihomo: set<string>,
                             singBox: set<string>, bytes: nat, document: Document)
    requires Gathered(all, canonical, uris, mihomo, singBox, bytes)
    requires Sorts(document.uris, uris) && Sorts(document.mihomo, mihomo) && Sorts(document.singBox, singBox)
    ensures Objects(Mihomos(all), canonical) && Objects(SingBoxes(all), canonical)
    ensures bytes == TotalBytes(all) && document == Aggregated(all, canonical)
  {
    SortedIsCollected(document.uris, Uris(all));
    SortedIsCollected(document.mihomo, Canonicals(Mihomos(all), canonical));
    SortedIsCollected(document.singBox, Canonicals(SingBoxes(all), canonical));
  }

  // ---------------------------------------------------------------------------------------------
  // Order and repetition do not matter
  // ---------------------------------------------------------------------------------------------

  /** The document lists each line and each canonical object once, in order. */
  lemma DocumentIsSortedAndComplete(all: seq<Contribution>, canonical: Canonical)
    requires Objects(Mihomos(all), canonical) && Objects(SingBoxes(all), canonical)
    ensures var document := Aggregated(all, canonical);
      && Sorts(document.uris, Elements(Uris(all)))
      && Sorts(document.mihomo, Elements(Canonicals(Mihomos(all), canonical)))
      && Sorts(document.singBox, Elements(Canonicals(SingBoxes(all), canonical)))
  {
    CollectedIsTheSet(Uris(all));
    CollectedIsTheSet(Canonicals(Mihomos(all), canonical));
    CollectedIsTheSet(Canonicals(SingBoxes(all), canonical));
  }

  lemma {:induction false} FragmentsAreContributed(all: seq<Contribution>, text: string)
    ensures text in Uris(all) <==> exists service | service in all :: text in service.uris
    ensures text in Mihomos(all) <==> exists service | service in all :: text in service.mihomo
    ensures text in SingBoxes(all) <==> exists service | service in all :: text in service.singBox
  {
    if all != [] {
      var front, last := all[..|all| - 1], all[|all| - 1];
      FragmentsAreContributed(front, text);
      assert all == front + [last];
    }
  }

  lemma CanonicalForms(texts: seq<string>, canonical: Canonical, form: string)
    requires Objects(texts, canonical)
    ensures form in Canonicals(texts, canonical) <==> IsFormOf(form, texts, canonical)
  {
    var forms := Canonicals(texts, canonical);
    if form in forms {
      var i :| 0 <= i < |forms| && forms[i] == form;
      assert texts[i] in texts && canonical(texts[i]) == Some(form);
    }
    if text :| text in texts && canonical(text) == Some(form) {
      var i :| 0 <= i < |texts| && texts[i] == text;
      assert forms[i] == form;
    }
  }

  /** The canonical form of some fragment in these. */
  ghost predicate IsFormOf(form: string, texts: seq<string>, canonical: Canonical) {
    exists text | text in texts :: canonical(text) == Some(form)
  }

  /** Each format holds what some service contributes to it: its lines as they are, its objects in canonical form. */
  lemma DocumentHoldsTheContributions(all: seq<Contribution>, canonical: Canonical, text: string)
    requires Objects(Mihomos(all), canonical) && Objects(SingBoxes(all), canonical)
    ensures var document := Aggregated(all, canonical);
      && (text in document.uris <==> exists service | service in all :: text in service.uris)
      && (text in document.mihomo <==> exists service | service in all :: IsFormOf(text, service.mihomo, canonical))
      && (text in document.singBox <==> exists service | service in all :: IsFormOf(text, service.singBox, canonical))
  {
    DocumentIsSortedAndComplete(all, canonical);
    CanonicalForms(Mihomos(all), canonical, text);
    CanonicalForms(SingBoxes(all), canonical, text);
    FragmentsAreContributed(all, text);
    hide Collected, Canonicals, Objects, Aggregated, Rising;
    FormsAreContributed(all, canonical, text);
  }

  lemma FormsAreContributed(all: seq<Contribution>, canonical: Canonical, form: string)
    ensures IsFormOf(form, Mihomos(all), canonical) <==>
      exists service | service in all :: IsFormOf(form, service.mihomo, canonical)
    ensures IsFormOf(form, SingBoxes(all), canonical) <==>
      exists service | service in all :: IsFormOf(form, service.singBox, canonical)
  {
    forall fragment
      ensures fragment in Mihomos(all) <==> exists service | service in all :: fragment in service.mihomo
      ensures fragment in SingBoxes(all) <==> exists service | service in all :: fragment in service.singBox
    {
      FragmentsAreContributed(all, fragment);
    }
    hide Mihomos, SingBoxes;
    if fragment :| fragment in Mihomos(all) && canonical(fragment) == Some(form) {
      var service :| service in all && fragment in service.mihomo;
      assert IsFormOf(form, service.mihomo, canonical);
    }
    if service :| service in all && IsFormOf(form, service.mihomo, canonical) {
      var fragment :| fragment in service.mihomo && canonical(fragment) == Some(form);
      assert fragment in Mihomos(all);
    }
    if fragment :| fragment in SingBoxes(all) && canonical(fragment) == Some(form) {
      var service :| service in all && fragment in service.singBox;
      assert IsFormOf(form, service.singBox, canonical);
    }
    if service :| service in all && IsFormOf(form, service.singBox, canonical) {
      var fragment :| fragment in service.singBox && canonical(fragment) == Some(form);
      assert fragment in SingBoxes(all);
    }
  }

  /** The limit is on the bytes of all lines and objects together. */
  lemma {:induction false} TotalCountsEverything(all: seq<Contribution>)
    ensures TotalBytes(all) == Bytes(Uris(all)) + Bytes(Mihomos(all)) + Bytes(SingBoxes(all))
  {
    if all != [] {
      var front, last := all[..|all| - 1], all[|all| - 1];
      TotalCountsEverything(front);
      BytesConcatenate(Uris(front), last.uris);
      BytesConcatenate(Mihomos(front), last.mihomo);
      BytesConcatenate(SingBoxes(front), last.singBox);
    }
  }

  lemma {:induction false} BytesConcatenate(front: seq<string>, back: seq<string>)
    ensures Bytes(front + back) == Bytes(front) + Bytes(back)
  {
    if back == [] {
      assert front + back == front;
    } else {
      assert (front + back)[..|front + back| - 1] == front + back[..|back| - 1];
      BytesConcatenate(front, back[..|back| - 1]);
    }
  }

  /** Contributions with the same sets of lines and canonical objects give the same document. */
  lemma OnlySetsMatter(a: seq<Contribution>, b: seq<Contribution>, canonical: Canonical)
    requires Objects(Mihomos(a), canonical) && Objects(SingBoxes(a), canonical)
    requires Objects(Mihomos(b), canonical) && Objects(SingBoxes(b), canonical)
    ensures Aggregated(a, canonical) == Aggregated(b, canonical) <==>
            (Elements(Uris(a)) == Elements(Uris(b))
             && Elements(Canonicals(Mihomos(a), canonical)) == Elements(Canonicals(Mihomos(b), canonical))
             && Elements(Canonicals(SingBoxes(a), canonical)) == Elements(Canonicals(SingBoxes(b), canonical)))
  {
    DocumentIsSortedAndComplete(a, canonical);
    DocumentIsSortedAndComplete(b, canonical);
    hide Canonicals, Uris, Mihomos, SingBoxes, Collected, Elements, Objects;
    var x, y := Aggregated(a, canonical), Aggregated(b, canonical);
    SameSetSameOrder(x.uris, y.uris, Elements(Uris(a)), Elements(Uris(b)));
    SameSetSameOrder(x.mihomo, y.mihomo,
                     Elements(Canonicals(Mihomos(a), canonical)), Elements(Canonicals(Mihomos(b), canonical)));
    SameSetSameOrder(x.singBox, y.singBox,
                     Elements(Canonicals(SingBoxes(a), canonical)), Elements(Canonicals(SingBoxes(b), canonical)));
  }

  lemma SameSetSameOrder(x: seq<string>, y: seq<string>, a: set<string>, b: set<string>)
    requires Sorts(x, a) && Sorts(y, b)
    ensures x == y <==> a == b
  {
    if a == b {
      RisingIsUnique(x, y);
    } else {
      assert x == y ==> a == b;
    }
  }

  /** As many bytes, the same lines, the same fragments. */
  ghost predicate SameContents(a: seq<Contribution>, b: seq<Contribution>) {
    && TotalBytes(a) == TotalBytes(b) && Elements(Uris(a)) == Elements(Uris(b))
    && Elements(Mihomos(a)) == Elements(Mihomos(b)) && Elements(SingBoxes(a)) == Elements(SingBoxes(b))
  }

  lemma AppendedContents(front: seq<Contribution>, last: Contribution)
    ensures TotalBytes(front + [last]) == TotalBytes(front) + Bytes(last.uris) + Bytes(last.mihomo) + Bytes(last.singBox)
    ensures Elements(Uris(front + [last])) == Elements(Uris(front)) + Elements(last.uris)
    ensures Elements(Mihomos(front + [last])) == Elements(Mihomos(front)) + Elements(last.mihomo)
    ensures Elements(SingBoxes(front + [last])) == Elements(SingBoxes(front)) + Elements(last.singBox)
  {
    Appending(front, last);
    ElementsSplit(Uris(front), last.uris);
    ElementsSplit(Mihomos(front), last.mihomo);
    ElementsSplit(SingBoxes(front), last.singBox);
  }

  lemma SameContentsAppend(a: seq<Contribution>, b: seq<Contribution>, last: Contribution)
    requires SameContents(a, b)
    ensures SameContents(a + [last], b + [last])
  {
    AppendedContents(a, last);
    AppendedContents(b, last);
    hide Uris, Mihomos, SingBoxes, TotalBytes, Bytes, Elements;
  }

  lemma SwappedContents(rest: seq<Contribution>, x: Contribution, y: Contribution)
    ensures SameContents(rest + [x] + [y], rest + [y] + [x])
  {
    AppendedContents(rest, x);
    AppendedContents(rest + [x], y);
    AppendedContents(rest, y);
    AppendedContents(rest + [y], x);
    hide Uris, Mihomos, SingBoxes, TotalBytes, Bytes, Elements;
  }

  lemma {:induction false} MovedToTheEnd(all: seq<Contribution>, index: nat)
    requires index < |all|
    ensures SameContents(all, all[..index] + all[index + 1..] + [all[index]])
  {
    var one, front, last := all[index], all[..|all| - 1], all[|all| - 1];
    if index == |all| - 1 {
      assert all == all[..index] + all[index + 1..] + [one];
    } else {
      hide SameContents;
      MovedToTheEnd(front, index);
      var rest := front[..index] + front[index + 1..];
      assert all[..index] + all[index + 1..] == rest + [last] && all == front + [last];
      SameContentsAppend(front, rest + [one], last);
      SwappedContents(rest, one, last);
      SameContentsCompose(all, rest + [one] + [last], rest + [last] + [one]);
    }
  }

  lemma SameContentsCompose(a: seq<Contribution>, b: seq<Contribution>, c: seq<Contribution>)
    requires SameContents(a, b) && SameContents(b, c)
    ensures SameContents(a, c)
  {
  }

  lemma WithoutOne(all: seq<Contribution>, index: nat)
    requires index < |all|
    ensures multiset(all[..index] + all[index + 1..]) == multiset(all) - multiset{all[index]}
  {
    assert all == all[..index] + [all[index]] + all[index + 1..];
  }

  lemma MatchingPlace(a: seq<Contribution>, b: seq<Contribution>) returns (index: nat)
    requires multiset(a) == multiset(b) && b != []
    ensures index < |a| && a[index] == b[|b| - 1]
    ensures multiset(a[..index] + a[index + 1..]) == multiset(b[..|b| - 1])
  {
    var last := b[|b| - 1];
    assert last in multiset(a);
    index :| 0 <= index < |a| && a[index] == last;
    WithoutOne(a, index);
    WithoutOne(b, |b| - 1);
    assert b[..|b| - 1] + b[|b| - 1 + 1..] == b[..|b| - 1];
  }

  lemma {:induction false} PermutedContents(a: seq<Contribution>, b: seq<Contribution>)
    requires multiset(a) == multiset(b)
    ensures SameContents(a, b)
    decreases |b|
  {
    if b == [] {
      assert |multiset(a)| == |a|;
    } else {
      hide SameContents;
      var front, last := b[..|b| - 1], b[|b| - 1];
      assert b == front + [last];
      var index := MatchingPlace(a, b);
      var rest := a[..index] + a[index + 1..];
      PermutedContents(rest, front);
      MovedToTheEnd(a, index);
      SameContentsAppend(rest, front, last);
      SameContentsCompose(a, rest + [last], b);
    }
  }

  lemma SameObjects(a: seq<string>, b: seq<string>, canonical: Canonical)
    requires Elements(a) == Elements(b)
    ensures Objects(a, canonical) <==> Objects(b, canonical)
    ensures Objects(a, canonical) ==> Elements(Canonicals(a, canonical)) == Elements(Canonicals(b, canonical))
  {
    if Objects(b, canonical) {
      ObjectsWithin(a, b, canonical);
    }
    if Objects(a, canonical) {
      ObjectsWithin(b, a, canonical);
    }
  }

  lemma ObjectsWithin(a: seq<string>, b: seq<string>, canonical: Canonical)
    requires Elements(a) <= Elements(b) && Objects(b, canonical)
    ensures Objects(a, canonical) && Elements(Canonicals(a, canonical)) <= Elements(Canonicals(b, canonical))
  {
    forall i | 0 <= i < |a|
      ensures canonical(a[i]).Some? && canonical(a[i]).value in Canonicals(b, canonical)
    {
      assert a[i] in Elements(a);
      var j :| 0 <= j < |b| && b[j] == a[i];
      assert Canonicals(b, canonical)[j] == canonical(a[i]).value;
    }
  }

  /** Reordering the contributions changes neither whether they can be aggregated nor the document. */
  lemma OrderDoesNotMatter(a: seq<Contribution>, b: seq<Contribution>, canonical: Canonical, limit: nat)
    requires multiset(a) == multiset(b)
    ensures Aggregable(a, canonical, limit) <==> Aggregable(b, canonical, limit)
    ensures Aggregable(a, canonical, limit) ==> Aggregated(a, canonical) == Aggregated(b, canonical)
  {
    PermutedContents(a, b);
    hide Uris, Mihomos, SingBoxes, TotalBytes, Elements, Objects, Canonicals, Collected;
    SameObjects(Mihomos(a), Mihomos(b), canonical);
    SameObjects(SingBoxes(a), SingBoxes(b), canonical);
    if Aggregable(a, canonical, limit) {
      OnlySetsMatter(a, b, canonical);
    }
  }
}
