/**
 The router's merge of context-match answers: one offer per package, all segments in one list, and each
 provider's targeting key-values in that provider's own bucket.
 */
module ContextMerge {
  import opened Text
  import opened Arrival

  datatype Offer = Offer(packageID: string, body: string)

  /** A signal value: an array, or something that cannot be concatenated. */
  datatype Value = Array(items: seq<string>) | Other(text: string)

  type Signals = map<string, Value>

  datatype Response = Response(offers: seq<Offer>, signals: Signals)

  /** What came back from one provider; none when it did not answer. */
  datatype Result = Result(providerID: string, response: Option<Response>)

  const SEGMENTS := "segments"
  const TARGETING_KVS := "targeting_kvs"

  function Items(v: Value): seq<string> { if v.Array? then v.items else [] }

  function Listed(s: Signals, key: string): seq<string> { if key in s then Items(s[key]) else [] }

  function Extra(s: Signals): Signals { map k | k in s && k != SEGMENTS && k != TARGETING_KVS :: s[k] }

  function Bucket(byProvider: map<string, seq<string>>, id: string): seq<string> {
    if id in byProvider then byProvider[id] else []
  }

  function Attributed(byProvider: map<string, seq<string>>, id: string, kvs: seq<string>): map<string, seq<string>> {
    if id == "" || kvs == [] then byProvider else byProvider[id := Bucket(byProvider, id) + kvs]
  }

  lemma NothingExtra(s: Signals)
    ensures Extra(s - s.Keys) == map[]
  {
  }

  lemma ExtraMeans(s: Signals)
    ensures forall k :: k in Extra(s) <==> k in s && k != "segments" && k != "targeting_kvs"
    ensures forall k <- Extra(s) :: Extra(s)[k] == s[k]
  {
  }

  /** One more visited key adds its value, unless it has a place of its own. */
  lemma ExtraGrows(s: Signals, todo: set<string>, key: string)
    requires key in s && key in todo
    ensures Extra(s - (todo - {key})) ==
            if key == SEGMENTS || key == TARGETING_KVS then Extra(s - todo) else Extra(s - todo)[key := s[key]]
  {
  }

  class SignalsMerger {
    var segments: seq<string>
    var extra: Signals
    var byProvider: map<string, seq<string>>

    constructor ()
      ensures segments == [] && extra == map[] && byProvider == map[]
    {
      segments, extra, byProvider := [], map[], map[];
    }

    /** Folds one provider's signals in, whatever order its keys are visited in. */
    method Add(providerID: string, signals: Signals)
      modifies this
      ensures segments == old(segments) + Listed(signals, SEGMENTS)
      ensures extra == old(extra) + Extra(signals)
      ensures byProvider == Attributed(old(byProvider), providerID, Listed(signals, TARGETING_KVS))
      ensures segments == old(segments) + if "segments" in signals && signals["segments"].Array? then signals["segments"].items else []
      ensures forall k :: k in extra <==> k in old(extra) || (k in signals && k != "segments" && k != "targeting_kvs")
      ensures forall k <- extra :: extra[k] == if k in signals && k != "segments" && k != "targeting_kvs" then signals[k] else old(extra)[k]
      ensures if providerID != "" && "targeting_kvs" in signals && signals["targeting_kvs"].Array? && signals["targeting_kvs"].items != []
              then byProvider == old(byProvider)[providerID := (if providerID in old(byProvider) then old(byProvider)[providerID] else [])
                                                               + signals["targeting_kvs"].items]
              else byProvider == old(byProvider)
    {
      hide Extra;
      var todo := signals.Keys;
      NothingExtra(signals);
      while todo != {}
        invariant todo <= signals.Keys
        invariant segments == if SEGMENTS in todo then old(segments) else old(segments) + Listed(signals, SEGMENTS)
        invariant extra == old(extra) + Extra(signals - todo)
        invariant byProvider == if TARGETING_KVS in todo then old(byProvider)
                                else Attributed(old(byProvider), providerID, Listed(signals, TARGETING_KVS))
        decreases todo
      {
        var key :| key in todo;
        ExtraGrows(signals, todo, key);
        todo := todo - {key};
        if key == SEGMENTS {
          segments := segments + Items(signals[key]);
        } else if key == TARGETING_KVS {
          if providerID == "" {
            continue;
          }
          var kvs := Items(signals[key]);
          if |kvs| == 0 {
            continue;
          }
          var existing := if providerID in byProvider then byProvider[providerID] else [];
          byProvider := byProvider[providerID := existing + kvs];
        } else {
          extra := extra[key := signals[key]];
        }
      }
      assert signals - {} == signals;
      ExtraMeans(signals);
    }
  }

  // ---- the specification: one result after the other ----

  predicate Has(offers: seq<Offer>, pkg: string) { exists i :: 0 <= i < |offers| && offers[i].packageID == pkg }

  /** The offers kept so far and of the further ones those whose package is new. */
  function KeepFirst(kept: seq<Offer>, more: seq<Offer>): seq<Offer> {
    if more == [] then kept
    else
      var k := KeepFirst(kept, more[..|more| - 1]);
      var last := more[|more| - 1];
      if Has(k, last.packageID) then k else k + [last]
  }

  function Offers(r: Result): seq<Offer> { if r.response.Some? then r.response.value.offers else [] }

  function Of(r: Result, key: string): seq<string> { if r.response.Some? then Listed(r.response.value.signals, key) else [] }

  function AllOffers(results: seq<Result>): seq<Offer> {
    if results == [] then [] else AllOffers(results[..|results| - 1]) + Offers(results[|results| - 1])
  }

  function AllSegments(results: seq<Result>): seq<string> {
    if results == [] then [] else AllSegments(results[..|results| - 1]) + Of(results[|results| - 1], SEGMENTS)
  }

  /** The other signals, of each key the one that arrived last. */
  function AllExtra(results: seq<Result>): Signals {
    if results == [] then map[]
    else
      var last := results[|results| - 1];
      AllExtra(results[..|results| - 1]) + if last.response.Some? then Extra(last.response.value.signals) else map[]
  }

  function Buckets(results: seq<Result>): map<string, seq<string>> {
    if results == [] then map[]
    else
      var last := results[|results| - 1];
      Attributed(Buckets(results[..|results| - 1]), last.providerID, Of(last, TARGETING_KVS))
  }

  method MergeContext(results: seq<Result>)
    returns (offers: seq<Offer>, segments: seq<string>, extra: Signals, byProvider: map<string, seq<string>>)
    ensures offers == KeepFirst([], AllOffers(results))
    ensures segments == AllSegments(results)
    ensures byProvider == Buckets(results)
    ensures extra == AllExtra(results)
  {
    offers := [];
    var signals := new SignalsMerger();
    for i := 0 to |results|
      invariant offers == KeepFirst([], AllOffers(results[..i]))
      invariant signals.segments == AllSegments(results[..i])
      invariant signals.byProvider == Buckets(results[..i])
      invariant signals.extra == AllExtra(results[..i])
      invariant fresh(signals)
    {
      var r := results[i];
      assert results[..i + 1][..i] == results[..i];
      KeepFirstMore([], AllOffers(results[..i]), Offers(r));
      if r.response.None? {
        assert AllExtra(results[..i + 1]) == AllExtra(results[..i]);
        continue;
      }
      offers := AddOffers(offers, r.response.value.offers);
      signals.Add(r.providerID, r.response.value.signals);
    }
    assert results[..|results|] == results;
    segments, extra, byProvider := signals.segments, signals.extra, signals.byProvider;
  }

  method AddOffers(kept: seq<Offer>, more: seq<Offer>) returns (all: seq<Offer>)
    ensures all == KeepFirst(kept, more)
  {
    all := kept;
    var seen := set i | 0 <= i < |kept| :: kept[i].packageID;
    for i := 0 to |more|
      invariant all == KeepFirst(kept, more[..i])
      invariant forall pkg :: pkg in seen <==> Has(all, pkg)
    {
      assert more[..i + 1][..i] == more[..i];
      if more[i].packageID in seen {
        continue;
      }
      ghost var before := all;
      all := all + [more[i]];
      forall pkg ensures Has(all, pkg) <==> Has(before, pkg) || pkg == more[i].packageID {
        HasMore(before, more[i], pkg);
      }
      seen := seen + {more[i].packageID};
    }
    assert more[..|more|] == more;
  }

  lemma HasMore(offers: seq<Offer>, o: Offer, pkg: string)
    ensures Has(offers + [o], pkg) <==> Has(offers, pkg) || pkg == o.packageID
  {
    if Has(offers, pkg) {
      var i :| 0 <= i < |offers| && offers[i].packageID == pkg;
      assert (offers + [o])[i].packageID == pkg;
    }
    assert (offers + [o])[|offers|] == o;
  }

  lemma {:induction false} KeepFirstMore(kept: seq<Offer>, a: seq<Offer>, b: seq<Offer>)
    ensures KeepFirst(KeepFirst(kept, a), b) == KeepFirst(kept, a + b)
    decreases |b|
  {
    if b == [] {
      assert a + b == a;
    } else {
      var n := |b| - 1;
      KeepFirstMore(kept, a, b[..n]);
      assert (a + b)[..|a + b| - 1] == a + b[..n];
    }
  }

  // ---- what is kept ----

  /** The first of these offers with its package. */
  ghost predicate FirstOfPackage(offers: seq<Offer>, i: nat)
    requires i < |offers|
  {
    forall j :: 0 <= j < i ==> offers[j].packageID != offers[i].packageID
  }

  lemma {:induction false} KeptHas(offers: seq<Offer>, pkg: string)
    ensures Has(KeepFirst([], offers), pkg) <==> Has(offers, pkg)
  {
    if offers != [] {
      var n := |offers| - 1;
      KeptHas(offers[..n], pkg);
      KeptHas(offers[..n], offers[n].packageID);
      assert offers == offers[..n] + [offers[n]];
      HasMore(offers[..n], offers[n], pkg);
      HasMore(KeepFirst([], offers[..n]), offers[n], pkg);
    }
  }

  /** The first offer of a package to arrive is kept, and no other of that package. */
  lemma {:induction false} FirstArrivalWins(offers: seq<Offer>, i: nat)
    requires i < |offers|
    ensures FirstOfPackage(offers, i) ==> offers[i] in KeepFirst([], offers)
    ensures forall x :: x in KeepFirst([], offers) && x.packageID == offers[i].packageID && FirstOfPackage(offers, i) ==> x == offers[i]
    decreases |offers|
  {
    var n := |offers| - 1;
    var k := KeepFirst([], offers[..n]);
    assert offers == offers[..n] + [offers[n]];
    KeptHas(offers[..n], offers[n].packageID);
    if i < n {
      FirstArrivalWins(offers[..n], i);
      assert FirstOfPackage(offers, i) <==> FirstOfPackage(offers[..n], i);
      assert offers[..n][i] == offers[i];
      assert FirstOfPackage(offers, i) && offers[n].packageID == offers[i].packageID ==> Has(offers[..n], offers[n].packageID);
    } else if FirstOfPackage(offers, i) {
      assert !Has(offers[..n], offers[n].packageID);
      forall x | x in k ensures x.packageID != offers[n].packageID {
        assert !Has(k, offers[n].packageID);
      }
    }
  }

  /** `at` lists, in order, the positions of the first offers of their packages, and `kept` those offers. */
  ghost predicate FirstsAt(offers: seq<Offer>, kept: seq<Offer>, at: seq<nat>) {
    && |at| == |kept|
    && (forall a, b :: 0 <= a < b < |at| ==> at[a] < at[b])
    && (forall a :: 0 <= a < |at| ==> at[a] < |offers| && kept[a] == offers[at[a]])
    && (forall i: nat | i < |offers| :: FirstOfPackage(offers, i) <==> i in at)
  }

  lemma FirstAsBefore(so: seq<Offer>, o: Offer, i: nat)
    requires i < |so|
    ensures FirstOfPackage(so + [o], i) <==> FirstOfPackage(so, i)
  {
    assert forall j :: 0 <= j <= i ==> (so + [o])[j] == so[j];
  }

  lemma FirstsSame(so: seq<Offer>, o: Offer, kept: seq<Offer>, at: seq<nat>)
    requires FirstsAt(so, kept, at) && !FirstOfPackage(so + [o], |so|)
    ensures FirstsAt(so + [o], kept, at)
  {
    forall i: nat | i < |so + [o]| ensures FirstOfPackage(so + [o], i) <==> i in at {
      if i < |so| {
        FirstAsBefore(so, o, i);
      }
    }
    hide FirstOfPackage;
  }

  lemma FirstsMore(so: seq<Offer>, o: Offer, kept: seq<Offer>, at: seq<nat>)
    requires FirstsAt(so, kept, at) && FirstOfPackage(so + [o], |so|)
    ensures FirstsAt(so + [o], kept + [o], at + [|so|])
  {
    hide FirstOfPackage;
    var more := at + [|so|];
    forall i: nat | i < |so + [o]| ensures FirstOfPackage(so + [o], i) <==> i in more {
      if i < |so| {
        FirstAsBefore(so, o, i);
        assert i in more <==> i in at;
      } else {
        assert more[|at|] == i;
      }
    }
  }

  lemma {:induction false} KeptFirsts(offers: seq<Offer>) returns (at: seq<nat>)
    ensures FirstsAt(offers, KeepFirst([], offers), at)
  {
    at := [];
    if offers != [] {
      var n := |offers| - 1;
      var so, o := offers[..n], offers[n];
      assert offers == so + [o];
      at := KeptFirsts(so);
      var kept := KeepFirst([], so);
      KeptHas(so, o.packageID);
      assert KeepFirst([], offers) == if Has(so, o.packageID) then kept else kept + [o];
      assert Has(so, o.packageID) <==> !FirstOfPackage(so + [o], n);
      hide KeepFirst, FirstsAt, FirstOfPackage, Has;
      if Has(so, o.packageID) {
        FirstsSame(so, o, kept, at);
      } else {
        FirstsMore(so, o, kept, at);
        at := at + [n];
      }
    }
  }

  /** The kept offers are the first ones of their packages, all of them, in their order of arrival. */
  lemma KeptInOrder(offers: seq<Offer>) returns (at: seq<nat>)
    ensures |at| == |KeepFirst([], offers)|
    ensures forall a, b :: 0 <= a < b < |at| ==> at[a] < at[b]
    ensures forall a :: 0 <= a < |at| ==> at[a] < |offers| && KeepFirst([], offers)[a] == offers[at[a]]
    ensures forall i: nat | i < |offers| :: i in at <==> forall j :: 0 <= j < i ==> offers[j].packageID != offers[i].packageID
  {
    at := KeptFirsts(offers);
    hide KeepFirst;
  }

  ghost predicate Once(k: seq<Offer>) { forall i, j :: 0 <= i < j < |k| ==> k[i].packageID != k[j].packageID }

  lemma OnceMore(k: seq<Offer>, o: Offer)
    requires Once(k) && !Has(k, o.packageID)
    ensures Once(k + [o])
  {
    forall i, j | 0 <= i < j < |k + [o]| ensures (k + [o])[i].packageID != (k + [o])[j].packageID {
      assert (k + [o])[i] == k[i];
    }
  }

  lemma {:induction false} OncePerPackage(offers: seq<Offer>)
    ensures Once(KeepFirst([], offers))
  {
    if offers != [] {
      var n := |offers| - 1;
      OncePerPackage(offers[..n]);
      if !Has(KeepFirst([], offers[..n]), offers[n].packageID) {
        OnceMore(KeepFirst([], offers[..n]), offers[n]);
      }
    }
  }

  // ---- the order of arrival ----

  ghost predicate Distinct(results: seq<Result>) {
    && (forall i :: 0 <= i < |results| ==> results[i].providerID != "")
    && (forall i, j :: 0 <= i < j < |results| ==> results[i].providerID != results[j].providerID)
  }

  /** Distinctness does not depend on the order either. */
  lemma DistinctAnyOrder(a: seq<Result>, b: seq<Result>)
    requires multiset(a) == multiset(b) && Distinct(a)
    ensures Distinct(b)
  {
    SameMembers(a, b);
    OnceEach(a);
    forall i | 0 <= i < |b| ensures b[i].providerID != "" {
      assert b[i] in b;
    }
    forall i, j | 0 <= i < j < |b| ensures b[i].providerID != b[j].providerID {
      assert b[i] in a && b[j] in a;
      if b[i] == b[j] {
        TwiceThere(b, i, j);
      }
    }
  }

  lemma {:induction false} SegmentsAppend(a: seq<Result>, b: seq<Result>)
    ensures AllSegments(a + b) == AllSegments(a) + AllSegments(b)
    decreases |b|
  {
    if b == [] {
      assert a + b == a;
    } else {
      assert (a + b)[..|a + b| - 1] == a + b[..|b| - 1];
      SegmentsAppend(a, b[..|b| - 1]);
    }
  }

  /** Two arrival orders give the same segments, each as often. */
  lemma {:induction false} SameSegments(a: seq<Result>, b: seq<Result>)
    requires multiset(a) == multiset(b)
    ensures multiset(AllSegments(a)) == multiset(AllSegments(b))
    decreases |a|
  {
    hide AllSegments;
    SameMembers(a, b);
    if a != [] {
      var n := |a| - 1;
      var i := TakeLast(a, b);
      SameSegments(a[..n], b[..i] + b[i + 1..]);
      Around(b, i);
      SegmentsAppend(b[..i] + [b[i]], b[i + 1..]);
      SegmentsAppend(b[..i], [b[i]]);
      SegmentsAppend(b[..i], b[i + 1..]);
      SegmentsAppend(a[..n], [a[n]]);
      assert a == a[..n] + [a[n]];
    } else {
      assert a == b;
    }
  }

  /** A package is offered, in whatever order, when some provider offers it. */
  lemma {:induction false} OfferedBySome(results: seq<Result>, pkg: string)
    ensures Has(AllOffers(results), pkg) <==> exists r :: r in results && Has(Offers(r), pkg)
  {
    if results != [] {
      var n := |results| - 1;
      OfferedBySome(results[..n], pkg);
      assert results == results[..n] + [results[n]];
      HasConcat(AllOffers(results[..n]), Offers(results[n]), pkg);
    }
  }

  lemma HasConcat(a: seq<Offer>, b: seq<Offer>, pkg: string)
    ensures Has(a + b, pkg) <==> Has(a, pkg) || Has(b, pkg)
  {
    if Has(a, pkg) {
      var i :| 0 <= i < |a| && a[i].packageID == pkg;
      assert (a + b)[i] == a[i];
    }
    if Has(b, pkg) {
      var i :| 0 <= i < |b| && b[i].packageID == pkg;
      assert (a + b)[|a| + i] == b[i];
    }
  }

  /** With distinct providers each bucket holds exactly what its provider sent. */
  lemma {:induction false} OwnBucket(results: seq<Result>, id: string)
    requires Distinct(results)
    ensures forall r :: r in results && r.providerID == id ==> Bucket(Buckets(results), id) == Of(r, TARGETING_KVS)
    ensures (forall r :: r in results ==> r.providerID != id) ==> id !in Buckets(results)
    ensures id in Buckets(results) ==> Buckets(results)[id] != []
  {
    if results != [] {
      var n := |results| - 1;
      OwnBucket(results[..n], id);
      assert results == results[..n] + [results[n]];
    }
  }

  /** The value that some answer gives an extra key, none later giving it another. */
  ghost predicate LastGiven(results: seq<Result>, k: string, v: Value) {
    exists i :: 0 <= i < |results| && Gives(results[i], k, v)
      && forall j :: i < j < |results| && results[j].response.Some? ==> k !in results[j].response.value.signals
  }

  predicate Gives(r: Result, k: string, v: Value) {
    r.response.Some? && k in r.response.value.signals && r.response.value.signals[k] == v
  }

  lemma LastGivenMore(so: seq<Result>, r: Result, k: string, v: Value)
    ensures LastGiven(so + [r], k, v)
        <==> if r.response.Some? && k in r.response.value.signals then Gives(r, k, v) else LastGiven(so, k, v)
  {
    var all := so + [r];
    assert all[|so|] == r && forall i :: 0 <= i < |so| ==> all[i] == so[i];
    if r.response.Some? && k in r.response.value.signals {
      if Gives(r, k, v) {
        assert Gives(all[|so|], k, v);
      }
    } else if LastGiven(so, k, v) {
      var i :| 0 <= i < |so| && Gives(so[i], k, v)
        && forall j :: i < j < |so| && so[j].response.Some? ==> k !in so[j].response.value.signals;
      assert Gives(all[i], k, v);
    }
  }

  lemma {:induction false} ExtraLastGiven(results: seq<Result>, k: string, v: Value)
    ensures k in AllExtra(results) && AllExtra(results)[k] == v
        <==> k != "segments" && k != "targeting_kvs" && LastGiven(results, k, v)
  {
    if results != [] {
      var n := |results| - 1;
      ExtraLastGiven(results[..n], k, v);
      hide LastGiven;
      LastGivenMore(results[..n], results[n], k, v);
      assert results == results[..n] + [results[n]];
    }
  }

  /** Of each extra signal key the value that arrived last stays; segments and key-values are not extra. */
  lemma LastExtraStays(results: seq<Result>, k: string, v: Value)
    ensures k in AllExtra(results) && AllExtra(results)[k] == v <==>
              && k != "segments" && k != "targeting_kvs"
              && exists i ::
                   && 0 <= i < |results| && results[i].response.Some? && k in results[i].response.value.signals
                   && results[i].response.value.signals[k] == v
                   && forall j :: i < j < |results| && results[j].response.Some? ==> k !in results[j].response.value.signals
  {
    ExtraLastGiven(results, k, v);
    hide AllExtra;
    if LastGiven(results, k, v) {
      var i :| 0 <= i < |results| && Gives(results[i], k, v)
        && forall j :: i < j < |results| && results[j].response.Some? ==> k !in results[j].response.value.signals;
      assert results[i].response.value.signals[k] == v;
    }
    if i :| && 0 <= i < |results| && results[i].response.Some? && k in results[i].response.value.signals
            && results[i].response.value.signals[k] == v
            && forall j :: i < j < |results| && results[j].response.Some? ==> k !in results[j].response.value.signals {
      assert Gives(results[i], k, v);
    }
  }

  /**
   Whatever the order in which distinct providers answer: the same packages are offered, once each; the same
   segments, each as often; and every provider's bucket is the same.
   */
  lemma OrderOfArrivalIrrelevant(a: seq<Result>, b: seq<Result>)
    requires multiset(a) == multiset(b) && Distinct(a)
    ensures forall pkg :: Has(KeepFirst([], AllOffers(a)), pkg) <==> Has(KeepFirst([], AllOffers(b)), pkg)
    ensures |KeepFirst([], AllOffers(a))| == |KeepFirst([], AllOffers(b))|
    ensures multiset(AllSegments(a)) == multiset(AllSegments(b))
    ensures Buckets(a) == Buckets(b)
  {
    hide Distinct;
    DistinctAnyOrder(a, b);
    SameMembers(a, b);
    SameSegments(a, b);
    SameBuckets(a, b);
    SamePackages(a, b);
  }

  lemma SamePackages(a: seq<Result>, b: seq<Result>)
    requires forall r :: r in a <==> r in b
    ensures forall pkg :: Has(KeepFirst([], AllOffers(a)), pkg) <==> Has(KeepFirst([], AllOffers(b)), pkg)
    ensures |KeepFirst([], AllOffers(a))| == |KeepFirst([], AllOffers(b))|
  {
    hide KeepFirst, AllOffers, Has, Offers;
    forall pkg ensures Has(KeepFirst([], AllOffers(a)), pkg) <==> Has(KeepFirst([], AllOffers(b)), pkg) {
      KeptHas(AllOffers(a), pkg);
      KeptHas(AllOffers(b), pkg);
      OfferedBySome(a, pkg);
      OfferedBySome(b, pkg);
    }
    OncePerPackage(AllOffers(a));
    OncePerPackage(AllOffers(b));
    SameCount(KeepFirst([], AllOffers(a)), KeepFirst([], AllOffers(b)));
  }

  lemma SameBuckets(a: seq<Result>, b: seq<Result>)
    requires Distinct(a) && Distinct(b) && forall r :: r in a <==> r in b
    ensures Buckets(a) == Buckets(b)
  {
    hide Buckets, Distinct;
    forall id ensures Bucket(Buckets(a), id) == Bucket(Buckets(b), id)
              ensures id in Buckets(a) <==> id in Buckets(b)
    {
      OwnBucket(a, id);
      OwnBucket(b, id);
    }
    assert Buckets(a).Keys == Buckets(b).Keys;
    forall id <- Buckets(a) ensures Buckets(a)[id] == Buckets(b)[id] {
      assert Bucket(Buckets(a), id) == Bucket(Buckets(b), id);
    }
  }

  lemma SameCount(a: seq<Offer>, b: seq<Offer>)
    requires Once(a) && Once(b)
    requires forall pkg :: Has(a, pkg) <==> Has(b, pkg)
    ensures |a| == |b|
  {
    CountPackages(a);
    CountPackages(b);
    assert Packages(a) == Packages(b) by {
      forall pkg ensures pkg in Packages(a) <==> pkg in Packages(b) {
        assert Has(a, pkg) <==> Has(b, pkg);
      }
    }
  }

  ghost function Packages(a: seq<Offer>): set<string> { set i | 0 <= i < |a| :: a[i].packageID }

  lemma {:induction false} CountPackages(a: seq<Offer>)
    requires Once(a)
    ensures |Packages(a)| == |a|
  {
    if a != [] {
      var n := |a| - 1;
      CountPackages(a[..n]);
      assert Packages(a) == Packages(a[..n]) + {a[n].packageID} by {
        forall pkg ensures pkg in Packages(a) <==> pkg in Packages(a[..n]) || pkg == a[n].packageID {
          if i :| 0 <= i < n && a[i].packageID == pkg {
            assert a[..n][i].packageID == pkg;
          }
        }
      }
      assert a[n].packageID !in Packages(a[..n]);
    }
  }
}
