/**
 Context-match signatures: the signed bytes, the daily epochs a signature is good for, revocation, and what
 verification accepts when signatures cannot be forged.
 */
module Signing {
  import opened Text
  import opened Sorting

  datatype Request = Request(seller: string, propertyRID: string, placementID: string, packageIDs: seq<string>)

  const SIGNED_TYPE := "context_match_request"
  const SECONDS_PER_DAY := 86400

  /** Integer division as Go does it, towards zero. */
  function Quotient(a: int, b: int): int
    requires b > 0
  {
    if a >= 0 then a / b else -(-a / b)
  }

  function EpochAt(unix: int): int { Quotient(unix, SECONDS_PER_DAY) }

  /** An epoch is a day, counted from 1970 in both directions; the epoch 0 covers the day on either side. */
  lemma EpochDays(unix: int, e: int)
    ensures e > 0 ==> (EpochAt(unix) == e <==> e * SECONDS_PER_DAY <= unix < (e + 1) * SECONDS_PER_DAY)
    ensures EpochAt(unix) == 0 <==> -SECONDS_PER_DAY < unix < SECONDS_PER_DAY
    ensures e < 0 ==> (EpochAt(unix) == e <==> (e - 1) * SECONDS_PER_DAY < unix <= e * SECONDS_PER_DAY)
  {
  }

  /** The epoch is the quotient rounded down exactly from 1970 on, and at midnight before that. */
  lemma EpochIsFloorExactly(unix: int)
    ensures EpochAt(unix) == unix / SECONDS_PER_DAY <==> unix >= 0 || unix % SECONDS_PER_DAY == 0
  {
  }

  /** Without trailing slashes. */
  function NormalizeEndpoint(url: string): string {
    if url != "" && url[|url| - 1] == '/' then NormalizeEndpoint(url[..|url| - 1]) else url
  }

  lemma {:induction false} NormalizeIdempotent(url: string)
    ensures NormalizeEndpoint(NormalizeEndpoint(url)) == NormalizeEndpoint(url)
    ensures NormalizeEndpoint(url) != "" ==> NormalizeEndpoint(url)[|NormalizeEndpoint(url)| - 1] != '/'
  {
    if url != "" && url[|url| - 1] == '/' {
      NormalizeIdempotent(url[..|url| - 1]);
    }
  }

  /** What normalising takes off the end is slashes only. */
  lemma {:induction false} OnlySlashesGo(url: string)
    ensures NormalizeEndpoint(url) <= url
    ensures forall i :: |NormalizeEndpoint(url)| <= i < |url| ==> url[i] == '/'
  {
    if url != "" && url[|url| - 1] == '/' {
      var shorter := url[..|url| - 1];
      OnlySlashesGo(shorter);
      forall i | |NormalizeEndpoint(url)| <= i < |url| - 1 ensures url[i] == '/' {
        assert shorter[i] == '/';
      }
    }
  }

  /** Package ids as they are signed: sorted and joined. */
  function PackagesText(ids: seq<string>): string { if ids == [] then "" else Join(Sort(ids), ',') }

  function Fields(r: Request, endpoint: string, epoch: int): seq<string> {
    [SIGNED_TYPE, r.seller, r.propertyRID, r.placementID, PackagesText(r.packageIDs), endpoint, PrintInt(epoch)]
  }

  /** The signed bytes. */
  function Input(r: Request, endpoint: string, epoch: int): string { Join(Fields(r, endpoint, epoch), '\n') }

  // ---- an ideal signature scheme ----

  /** A decoded signature: made with a key over a message, or anything else. */
  datatype Signature = Made(key: string, message: string) | Other(bytes: string)

  /** Unforgeability: only what was made with the key over the message verifies. */
  predicate Verifies(key: string, message: string, sig: Signature) { sig == Made(key, message) }

  function SignContextMatch(key: string, r: Request, url: string, epoch: int): Signature {
    Made(key, Input(r, NormalizeEndpoint(url), epoch))
  }

  datatype PublicKey = PublicKey(key: string, revokedAt: Option<int>)

  predicate RevokedForEpoch(k: PublicKey, e: int) { k.revokedAt.Some? && e >= EpochAt(k.revokedAt.value) }

  /** A revoked key is refused in every epoch that was not over when it was revoked. */
  lemma RevokedExactly(k: PublicKey, e: int)
    requires e >= 0
    ensures RevokedForEpoch(k, e) <==> k.revokedAt.Some? && k.revokedAt.value < (e + 1) * 86400
  {
  }

  datatype Verdict = Accepted | KeyUnknown | Malformed | KeyRevoked | Invalid

  /** The signature is over this request, for this endpoint and epoch, and the key is good for the epoch. */
  predicate GoodFor(r: Request, endpoint: string, sig: Signature, k: PublicKey, e: int) {
    !RevokedForEpoch(k, e) && Verifies(k.key, Input(r, endpoint, e), sig)
  }

  /** Verification accepts the present epoch and the one before. */
  predicate InWindow(now: int, e: int) { EpochAt(now) - 1 <= e <= EpochAt(now) }

  ghost predicate Accepts(r: Request, ownURL: string, sig: Signature, k: PublicKey, now: int) {
    exists e :: InWindow(now, e) && GoodFor(r, NormalizeEndpoint(ownURL), sig, k, e)
  }

  method VerifyContextMatch(r: Request, ownURL: string, sig: Option<Signature>, key: Option<PublicKey>, now: int)
    returns (verdict: Verdict)
    ensures verdict == KeyUnknown <==> key.None?
    ensures verdict == Malformed <==> key.Some? && sig.None?
    ensures verdict == Accepted <==>
              key.Some? && sig.Some? && Accepts(r, ownURL, sig.value, key.value, now)
    ensures verdict == Accepted ==> sig.value.Made? && sig.value.key == key.value.key
    ensures verdict == KeyRevoked <==>
              key.Some? && sig.Some? && RevokedForEpoch(key.value, EpochAt(now)) && RevokedForEpoch(key.value, EpochAt(now) - 1)
  {
    hide Input, EpochAt, NormalizeEndpoint;
    if key.None? {
      return KeyUnknown;
    }
    if sig.None? {
      return Malformed;
    }
    var endpoint := NormalizeEndpoint(ownURL);
    var current := EpochAt(now);
    var epochs := [current, current - 1];
    for i := 0 to |epochs|
      invariant forall j :: 0 <= j < i ==> !GoodFor(r, endpoint, sig.value, key.value, epochs[j])
    {
      if RevokedForEpoch(key.value, epochs[i]) {
        continue;
      }
      if Verifies(key.value.key, Input(r, endpoint, epochs[i]), sig.value) {
        assert InWindow(now, epochs[i]) && GoodFor(r, endpoint, sig.value, key.value, epochs[i]);
        return Accepted;
      }
    }
    assert epochs[0] == current && epochs[1] == current - 1;
    if RevokedForEpoch(key.value, current) && RevokedForEpoch(key.value, current - 1) {
      return KeyRevoked;
    }
    return Invalid;
  }

  // ---- what the signed bytes determine ----

  /** No line break in what is signed: request validation refuses control characters. */
  ghost predicate OneLine(r: Request, endpoint: string) {
    && '\n' !in r.seller && '\n' !in r.propertyRID && '\n' !in r.placementID && '\n' !in endpoint
    && forall i :: 0 <= i < |r.packageIDs| ==> '\n' !in r.packageIDs[i]
  }

  /** Requests that agree on everything that is signed. */
  ghost predicate Agree(r: Request, s: Request) {
    && r.seller == s.seller && r.propertyRID == s.propertyRID && r.placementID == s.placementID
    && PackagesText(r.packageIDs) == PackagesText(s.packageIDs)
  }

  lemma PackagesOneLine(ids: seq<string>)
    requires forall i :: 0 <= i < |ids| ==> '\n' !in ids[i]
    ensures '\n' !in PackagesText(ids)
  {
    if ids != [] {
      var sorted := Sort(ids);
      forall i | 0 <= i < |sorted| ensures '\n' !in sorted[i] {
        assert sorted[i] in multiset(sorted);
        assert sorted[i] in ids;
      }
      JoinFree(sorted, ',', '\n');
    }
  }

  lemma NumberOneLine(n: int)
    ensures '\n' !in PrintInt(n)
  {
    if n < 0 {
      assert '\n' !in PrintNat(-n);
    } else {
      assert '\n' !in PrintNat(n);
    }
  }

  lemma FieldsOneLine(r: Request, endpoint: string, epoch: int)
    requires OneLine(r, endpoint)
    ensures FreeOf(Fields(r, endpoint, epoch), '\n')
  {
    hide PackagesText, PrintInt;
    PackagesOneLine(r.packageIDs);
    NumberOneLine(epoch);
    var f := Fields(r, endpoint, epoch);
    forall p | p in f ensures '\n' !in p {
      var i :| 0 <= i < |f| && f[i] == p;
    }
  }

  /** The lines of the signed bytes, in their order. */
  lemma SignedLines(r: Request, endpoint: string, epoch: int)
    requires OneLine(r, endpoint)
    ensures Split(Input(r, endpoint, epoch), '\n') ==
            ["context_match_request", r.seller, r.propertyRID, r.placementID, PackagesText(r.packageIDs), endpoint, PrintInt(epoch)]
  {
    FieldsOneLine(r, endpoint, epoch);
    SplitJoin(Fields(r, endpoint, epoch), '\n');
  }

  /** A join breaks its line between parts and where a part does. */
  lemma {:induction false} JoinBreaks(parts: seq<string>)
    requires parts != []
    ensures multiset(Join(parts, '\n'))['\n'] >= |parts| - 1
    ensures multiset(Join(parts, '\n'))['\n'] == |parts| - 1 <==> FreeOf(parts, '\n')
  {
    if |parts| == 1 {
      assert parts[0] in parts;
    } else {
      JoinBreaks(parts[1..]);
      assert parts == [parts[0]] + parts[1..];
      assert FreeOf(parts, '\n') <==> '\n' !in parts[0] && FreeOf(parts[1..], '\n');
    }
  }

  /** If one request is on lines of its own, whatever has the same signed bytes agrees with it. */
  lemma InputInjective(r: Request, x: string, e: int, s: Request, y: string, f: int)
    requires OneLine(r, x)
    ensures Input(r, x, e) == Input(s, y, f) <==> Agree(r, s) && x == y && e == f
  {
    if Input(r, x, e) == Input(s, y, f) {
      FieldsOneLine(r, x, e);
      JoinBreaks(Fields(r, x, e));
      JoinBreaks(Fields(s, y, f));
      JoinInjective(Fields(r, x, e), Fields(s, y, f), '\n');
      var a, b := Fields(r, x, e), Fields(s, y, f);
      assert a[1] == b[1] && a[2] == b[2] && a[3] == b[3] && a[4] == b[4] && a[5] == b[5] && a[6] == b[6];
      PrintIntInjective(e, f);
    }
  }

  /** Two neighbouring parts may as well be one part with a line break in it. */
  lemma {:induction false} JoinPair(parts: seq<string>, i: nat)
    requires i + 1 < |parts|
    ensures Join(parts, '\n') == Join(parts[..i] + [parts[i] + "\n" + parts[i + 1]] + parts[i + 2..], '\n')
  {
    var merged := parts[..i] + [parts[i] + "\n" + parts[i + 1]] + parts[i + 2..];
    if i == 0 {
      if |parts| > 2 {
        assert merged[1..] == parts[1..][1..];
      }
    } else {
      JoinPair(parts[1..], i - 1);
      assert merged[1..] == parts[1..][..i - 1] + [parts[1..][i - 1] + "\n" + parts[1..][i]] + parts[1..][i + 1..];
    }
  }

  /** So a line break may move from one of two neighbours to the other. */
  lemma JoinShift(p: seq<string>, q: seq<string>, i: nat)
    requires i + 1 < |p| == |q| && p[..i] == q[..i] && p[i + 2..] == q[i + 2..]
    requires p[i] + "\n" + p[i + 1] == q[i] + "\n" + q[i + 1]
    ensures Join(p, '\n') == Join(q, '\n')
  {
    JoinPair(p, i);
    JoinPair(q, i);
  }

  /** A string cut at one of its line breaks. */
  lemma Broken(s: string) returns (a: string, b: string)
    requires '\n' in s
    ensures s == a + "\n" + b && |a| < |s| && |b| < |s|
  {
    var i :| 0 <= i < |s| && s[i] == '\n';
    a, b := s[..i], s[i + 1..];
  }

  lemma PackagesBroken(ids: seq<string>, i: nat)
    requires i < |ids| && '\n' in ids[i]
    ensures '\n' in PackagesText(ids)
  {
    var sorted := Sort(ids);
    assert ids[i] in multiset(sorted);
    var j :| 0 <= j < |sorted| && sorted[j] == ids[i];
    JoinKeeps(sorted, ',', '\n', j);
  }

  lemma OnePackage(t: string)
    ensures PackagesText([t]) == t
  {
    assert [t][..0] == [];
    assert Sort([t]) == [t];
  }

  /** Requests whose fields differ by one line break moved between neighbours have the same signed bytes. */
  lemma ShiftKeepsInput(r: Request, x: string, s: Request, y: string, e: int, i: nat)
    requires i < 6
    requires forall j :: 0 <= j < 7 && j != i && j != i + 1 ==> Fields(r, x, e)[j] == Fields(s, y, e)[j]
    requires Fields(r, x, e)[i] + "\n" + Fields(r, x, e)[i + 1] == Fields(s, y, e)[i] + "\n" + Fields(s, y, e)[i + 1]
    ensures Input(r, x, e) == Input(s, y, e)
  {
    var p, q := Fields(r, x, e), Fields(s, y, e);
    assert |p| == |q| == 7;
    hide Fields;
    assert p[..i] == q[..i];
    assert p[i + 2..] == q[i + 2..];
    JoinShift(p, q, i);
  }

  lemma SellerBroken(r: Request, x: string, e: int) returns (s: Request)
    requires '\n' in r.seller
    ensures Input(r, x, e) == Input(s, x, e) && !Agree(r, s)
  {
    hide PackagesText, PrintInt, Input;
    var a, b := Broken(r.seller);
    s := r.(seller := a, propertyRID := b + "\n" + r.propertyRID);
    ShiftKeepsInput(r, x, s, x, e, 1);
  }

  lemma PropertyBroken(r: Request, x: string, e: int) returns (s: Request)
    requires '\n' in r.propertyRID
    ensures Input(r, x, e) == Input(s, x, e) && !Agree(r, s)
  {
    hide PackagesText, PrintInt, Input;
    var a, b := Broken(r.propertyRID);
    s := r.(propertyRID := a, placementID := b + "\n" + r.placementID);
    ShiftKeepsInput(r, x, s, x, e, 2);
  }

  lemma PlacementBroken(r: Request, x: string, e: int) returns (s: Request)
    requires '\n' in r.placementID
    ensures Input(r, x, e) == Input(s, x, e) && !Agree(r, s)
  {
    hide PackagesText, PrintInt, Input;
    var a, b := Broken(r.placementID);
    var moved := b + "\n" + PackagesText(r.packageIDs);
    OnePackage(moved);
    s := r.(placementID := a, packageIDs := [moved]);
    ShiftKeepsInput(r, x, s, x, e, 3);
  }

  lemma EndpointBroken(r: Request, x: string, e: int) returns (s: Request, y: string)
    requires '\n' in x
    ensures Input(r, x, e) == Input(s, y, e) && x != y
  {
    hide PackagesText, PrintInt, Input;
    var a, b := Broken(x);
    var moved := PackagesText(r.packageIDs) + "\n" + a;
    OnePackage(moved);
    s, y := r.(packageIDs := [moved]), b;
    ShiftKeepsInput(r, x, s, y, e, 4);
  }

  lemma PackageBroken(r: Request, x: string, e: int) returns (s: Request)
    requires '\n' in PackagesText(r.packageIDs)
    ensures Input(r, x, e) == Input(s, x, e) && !Agree(r, s)
  {
    hide PackagesText, PrintInt, Input;
    var a, b := Broken(PackagesText(r.packageIDs));
    OnePackage(b);
    s := r.(placementID := r.placementID + "\n" + a, packageIDs := [b]);
    ShiftKeepsInput(r, x, s, x, e, 3);
  }

  /** Every line break in what is signed can be read as the end of a field that is shorter. */
  lemma LineBreakConfuses(r: Request, x: string, e: int) returns (s: Request, y: string)
    requires !OneLine(r, x)
    ensures Input(r, x, e) == Input(s, y, e) && !(Agree(r, s) && x == y)
  {
    hide Input, Agree;
    y := x;
    if '\n' in r.seller {
      s := SellerBroken(r, x, e);
    } else if '\n' in r.propertyRID {
      s := PropertyBroken(r, x, e);
    } else if '\n' in r.placementID {
      s := PlacementBroken(r, x, e);
    } else if '\n' in x {
      s, y := EndpointBroken(r, x, e);
    } else {
      var j :| 0 <= j < |r.packageIDs| && '\n' in r.packageIDs[j];
      PackagesBroken(r.packageIDs, j);
      s := PackageBroken(r, x, e);
    }
  }

  /** The signed bytes determine what they were made from exactly when no line break is in it. */
  lemma InputDeterminesExactly(r: Request, x: string, e: int)
    ensures (forall s, y, f :: Input(s, y, f) == Input(r, x, e) ==> Agree(r, s) && x == y && e == f) <==> OneLine(r, x)
  {
    if OneLine(r, x) {
      forall s, y, f | Input(s, y, f) == Input(r, x, e) ensures Agree(r, s) && x == y && e == f {
        InputInjective(r, x, e, s, y, f);
      }
    } else {
      var s, y := LineBreakConfuses(r, x, e);
    }
  }

  /** Ids that the joined text keeps apart. */
  ghost predicate Separable(ids: seq<string>) { forall i :: 0 <= i < |ids| ==> ids[i] != "" && ',' !in ids[i] }

  /** For such ids, the same text means the same packages, each as often, in whatever order they came. */
  lemma PackagesTextExactly(a: seq<string>, b: seq<string>)
    requires Separable(a) && Separable(b)
    ensures PackagesText(a) == PackagesText(b) <==> multiset(a) == multiset(b)
  {
    SortExactly(a, b);
    if a != [] {
      SortedText(a);
    }
    if b != [] {
      SortedText(b);
    }
    if a != [] && b != [] && PackagesText(a) == PackagesText(b) {
      JoinInjective(Sort(a), Sort(b), ',');
    }
    if multiset(a) == multiset(b) {
      assert |a| == |multiset(a)| && |b| == |multiset(b)|;
    }
  }

  lemma SortedText(ids: seq<string>)
    requires Separable(ids) && ids != []
    ensures FreeOf(Sort(ids), ',') && PackagesText(ids) != ""
  {
    var sorted := Sort(ids);
    forall p | p in sorted ensures p != "" && ',' !in p {
      assert p in multiset(sorted);
      assert p in ids;
    }
    assert sorted[0] in sorted;
    assert |Join(sorted, ',')| >= |sorted[0]|;
  }

  /**
   A context request signed at epoch `e` is accepted at exactly the times whose epoch is `e` or the next, by a
   key not revoked for `e`, and only for a request that agrees on all that is signed, at the same endpoint.
   */
  lemma AcceptedExactly(r: Request, url: string, e: int, s: Request, ownURL: string, k: PublicKey, signer: string, now: int)
    requires OneLine(r, url)
    ensures Accepts(s, ownURL, SignContextMatch(signer, r, url, e), k, now)
        <==> && signer == k.key && Agree(r, s) && NormalizeEndpoint(url) == NormalizeEndpoint(ownURL)
             && (EpochAt(now) == e || EpochAt(now) == e + 1) && !RevokedForEpoch(k, e)
  {
    NormalizedOneLine(url);
    hide Input, EpochAt, NormalizeEndpoint, Agree, OneLine, GoodFor, RevokedForEpoch;
    var x, y := NormalizeEndpoint(url), NormalizeEndpoint(ownURL);
    var sig := SignContextMatch(signer, r, url, e);
    GoodExactly(r, x, e, s, y, k, signer, e);
    if f :| InWindow(now, f) && GoodFor(s, y, sig, k, f) {
      GoodExactly(r, x, e, s, y, k, signer, f);
    }
    assert InWindow(now, e) <==> EpochAt(now) == e || EpochAt(now) == e + 1;
  }

  lemma GoodExactly(r: Request, x: string, e: int, s: Request, y: string, k: PublicKey, signer: string, f: int)
    requires OneLine(r, x)
    ensures GoodFor(s, y, Made(signer, Input(r, x, e)), k, f)
        <==> signer == k.key && Agree(r, s) && x == y && e == f && !RevokedForEpoch(k, e)
  {
    InputInjective(r, x, e, s, y, f);
    hide Input, Agree, OneLine;
  }

  lemma {:induction false} NormalizedOneLine(url: string)
    requires '\n' !in url
    ensures '\n' !in NormalizeEndpoint(url)
  {
    if url != "" && url[|url| - 1] == '/' {
      NormalizedOneLine(url[..|url| - 1]);
    }
  }
}
