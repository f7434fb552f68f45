/**
 * QR codes for shipments: the public tracking link a code encodes, the helper that gives a
 * shipment a code unless it has one, the stamp made right after a shipment is created, and the
 * candidates and outcome of the batch run. Rendering a link into an image is a parameter
 * `render`: None stands for a rendering that throws.
 */
module QrCodes {
  import opened Wrappers
  import opened Text
  import opened Tables
  import opened ShipmentModel

  const DefaultTrackingBase := "https://cargorealmandlogistics.com"
  const TrackingPath := "/app/trackshipment?tracking="

  /** The link's fixed part: the configured tracking site (or the default one) and the page path. */
  function TrackingPrefix(base: Option<string>): (r: string)
    ensures Truthy(base) ==> r == base.value + TrackingPath
    ensures !Truthy(base) ==> r == DefaultTrackingBase + TrackingPath
  {
    Or(base, DefaultTrackingBase) + TrackingPath
  }

  /** The public tracking link for a tracking number: the fixed prefix followed by the number. */
  function TrackingUrl(base: Option<string>, tn: string): (url: string)
    ensures |url| == |TrackingPrefix(base)| + |tn|
    ensures url[..|TrackingPrefix(base)|] == TrackingPrefix(base)
    ensures url[|TrackingPrefix(base)|..] == tn
  {
    TrackingPrefix(base) + tn
  }

  /** Reads the tracking number back out of a link, if the link has the expected prefix. */
  function TrackingNumberOf(base: Option<string>, url: string): (r: Option<string>)
    ensures r.Some? <==> |url| >= |TrackingPrefix(base)| && url[..|TrackingPrefix(base)|] == TrackingPrefix(base)
  {
    var prefix := TrackingPrefix(base);
    if |url| >= |prefix| && url[..|prefix|] == prefix then Some(url[|prefix|..]) else None
  }

  /** A link encodes its tracking number, and every link with the prefix is some number's link. */
  lemma TrackingUrlRoundTrip(base: Option<string>, tn: string, url: string)
    ensures TrackingNumberOf(base, TrackingUrl(base, tn)) == Some(tn)
    ensures TrackingNumberOf(base, url) == Some(tn) ==> TrackingUrl(base, tn) == url
  {
    if TrackingNumberOf(base, url) == Some(tn) {
      var prefix := TrackingPrefix(base);
      assert url == url[..|prefix|] + url[|prefix|..];
    }
  }

  /** Two shipments with different tracking numbers get different links. */
  lemma TrackingUrlInjective(base: Option<string>, tn1: string, tn2: string)
    requires TrackingUrl(base, tn1) == TrackingUrl(base, tn2)
    ensures tn1 == tn2
  {
    TrackingUrlRoundTrip(base, tn1, TrackingUrl(base, tn1));
    TrackingUrlRoundTrip(base, tn2, TrackingUrl(base, tn2));
  }

  /** Whether the helper reports success, and the shipment as it is afterwards. */
  datatype QrResult = QrResult(ok: bool, shipment: Shipment)

  /**
   * The QR helper. A shipment without a tracking number fails untouched; one that already has a
   * code succeeds untouched; otherwise the code for its tracking link is stored, and a rendering
   * failure is reported as failure. Nothing but the code ever changes.
   */
  function EnsureQrCode(s: Shipment, base: Option<string>, render: string -> Option<string>): (r: QrResult)
    ensures r.shipment.(qrCodeUrl := s.qrCodeUrl) == s
    ensures r.ok <==> s.trackingNumber != "" && (Truthy(s.qrCodeUrl) || render(TrackingUrl(base, s.trackingNumber)).Some?)
    ensures !r.ok ==> r.shipment == s
    ensures Truthy(s.qrCodeUrl) ==> r.shipment == s
    ensures r.ok ==> r.shipment.qrCodeUrl.Some?
    ensures r.shipment != s ==> r.shipment.qrCodeUrl == render(TrackingUrl(base, s.trackingNumber))
    ensures s.trackingNumber != "" && !Truthy(s.qrCodeUrl) && render(TrackingUrl(base, s.trackingNumber)).Some? ==>
      r.shipment.qrCodeUrl == render(TrackingUrl(base, s.trackingNumber))
  {
    if s.trackingNumber == "" then QrResult(false, s)
    else if Truthy(s.qrCodeUrl) then QrResult(true, s)
    else
      match render(TrackingUrl(base, s.trackingNumber))
      case None => QrResult(false, s)
      case Some(data) => QrResult(true, s.(qrCodeUrl := Some(data)))
  }

  /** A second call is a no-op once the first left a usable code (or there is no tracking number). */
  lemma EnsureQrCodeIdempotent(s: Shipment, base: Option<string>, render: string -> Option<string>)
    requires Truthy(EnsureQrCode(s, base, render).shipment.qrCodeUrl) || s.trackingNumber == ""
    ensures EnsureQrCode(EnsureQrCode(s, base, render).shipment, base, render) == EnsureQrCode(s, base, render)
  {
  }

  /**
   * The stamp right after a shipment is created: the code for its link overwrites whatever code the
   * request supplied; a rendering failure leaves the shipment as saved.
   */
  function StampQrCode(s: Shipment, base: Option<string>, render: string -> Option<string>): (r: Shipment)
    ensures r.(qrCodeUrl := s.qrCodeUrl) == s
    ensures render(TrackingUrl(base, s.trackingNumber)).Some? ==> r.qrCodeUrl == render(TrackingUrl(base, s.trackingNumber))
    ensures render(TrackingUrl(base, s.trackingNumber)).None? ==> r == s
  {
    match render(TrackingUrl(base, s.trackingNumber))
    case None => s
    case Some(data) => s.(qrCodeUrl := Some(data))
  }

  predicate LacksQrCode(s: Shipment) {
    s.qrCodeUrl.None?
  }

  /** The batch run's candidates: the shipments whose code is null, in natural order. */
  function MissingQr(t: map<nat, Shipment>, n: nat): (ids: seq<nat>)
    ensures forall i, j :: 0 <= i < j < |ids| ==> ids[i] < ids[j]
    ensures forall k :: k in ids <==> k in t && k < n && t[k].qrCodeUrl.None?
    ensures forall i :: 0 <= i < |ids| ==> ids[i] in t
  {
    KeysWhere(t, n, LacksQrCode)
  }

  /** The helper with the tracking site and the renderer fixed, as the batch calls it on each shipment. */
  function QrHelper(base: Option<string>, render: string -> Option<string>): Shipment -> QrResult {
    s => EnsureQrCode(s, base, render)
  }

  /** What a helper leaves of a shipment, as one step of ApplyEach. */
  function ShipmentAfter(helper: Shipment -> QrResult): Shipment -> Shipment {
    s => helper(s).shipment
  }

  /** The collection after `helper` has run on each listed shipment in turn. */
  function AfterEach(t: map<nat, Shipment>, ids: seq<nat>, helper: Shipment -> QrResult): map<nat, Shipment> {
    ApplyEach(t, ids, ShipmentAfter(helper))
  }

  /** How many of `helper`'s calls, made in turn on the listed shipments, reported success. */
  function Successes(t: map<nat, Shipment>, ids: seq<nat>, helper: Shipment -> QrResult): (c: nat)
    ensures c <= |ids|
    decreases |ids|
  {
    if ids == [] then 0
    else
      var before := AfterEach(t, ids[..|ids| - 1], helper);
      var id := ids[|ids| - 1];
      Successes(t, ids[..|ids| - 1], helper) + (if id in before && helper(before[id]).ok then 1 else 0)
  }

  /** One more turn of the batch: the next shipment is updated, and counted, from the current state. */
  lemma BatchStep(t: map<nat, Shipment>, ids: seq<nat>, i: nat, helper: Shipment -> QrResult)
    requires i < |ids| && ids[i] in t
    ensures var before := AfterEach(t, ids[..i], helper);
            && ids[i] in before
            && AfterEach(t, ids[..i + 1], helper) == before[ids[i] := helper(before[ids[i]]).shipment]
            && Successes(t, ids[..i + 1], helper) == Successes(t, ids[..i], helper) + (if helper(before[ids[i]]).ok then 1 else 0)
  {
    var next := ids[..i + 1];
    assert next[..|next| - 1] == ids[..i] && next[|next| - 1] == ids[i];
  }

  /** The collection after the QR helper has run on each listed shipment in turn. */
  function Provisioned(t: map<nat, Shipment>, ids: seq<nat>, base: Option<string>, render: string -> Option<string>): (r: map<nat, Shipment>)
    ensures r.Keys == t.Keys
  {
    AfterEach(t, ids, QrHelper(base, render))
  }

  /** How many of the QR helper's calls, made in turn on the listed shipments, reported success. */
  function GeneratedCount(t: map<nat, Shipment>, ids: seq<nat>, base: Option<string>, render: string -> Option<string>): (c: nat)
    ensures c <= |ids|
    ensures ids == [] ==> c == 0
  {
    Successes(t, ids, QrHelper(base, render))
  }

  /** How many of the listed shipments of `m` have a code. */
  function CountWithQr(m: map<nat, Shipment>, ids: seq<nat>): (c: nat)
    ensures c <= |ids|
    decreases |ids|
  {
    if ids == [] then 0
    else CountWithQr(m, ids[..|ids| - 1]) + (if ids[|ids| - 1] in m && m[ids[|ids| - 1]].qrCodeUrl.Some? then 1 else 0)
  }

  /**
   * For distinct shipments that all lacked a code, the batch's success count is the number of them
   * that have a code afterwards.
   */
  lemma {:induction false} GeneratedCountIsCodesAdded(t: map<nat, Shipment>, ids: seq<nat>, base: Option<string>, render: string -> Option<string>)
    requires forall i, j :: 0 <= i < j < |ids| ==> ids[i] != ids[j]
    requires forall i :: 0 <= i < |ids| ==> ids[i] in t && t[ids[i]].qrCodeUrl.None?
    ensures GeneratedCount(t, ids, base, render) == CountWithQr(Provisioned(t, ids, base, render), ids)
  {
    var f := ShipmentAfter(QrHelper(base, render));
    var after := Provisioned(t, ids, base, render);
    forall i | 0 <= i < |ids|
      ensures ids[i] in after && after[ids[i]] == EnsureQrCode(t[ids[i]], base, render).shipment
    {
      ApplyEachAt(t, ids, f, ids[i]);
    }
    CountsAgree(t, ids, base, render, after);
  }

  lemma {:induction false} CountsAgree(t: map<nat, Shipment>, ids: seq<nat>, base: Option<string>, render: string -> Option<string>, after: map<nat, Shipment>)
    requires forall i, j :: 0 <= i < j < |ids| ==> ids[i] != ids[j]
    requires forall i :: 0 <= i < |ids| ==> ids[i] in t && t[ids[i]].qrCodeUrl.None?
    requires forall i :: 0 <= i < |ids| ==> ids[i] in after && after[ids[i]] == EnsureQrCode(t[ids[i]], base, render).shipment
    ensures GeneratedCount(t, ids, base, render) == CountWithQr(after, ids)
    decreases |ids|
  {
    if ids != [] {
      var prefix := ids[..|ids| - 1];
      var id := ids[|ids| - 1];
      CountsAgree(t, prefix, base, render, after);
      GeneratedCountLast(t, ids, base, render);
    }
  }

  /** The last of distinct candidates is counted by what the helper makes of it as it was before the batch. */
  lemma GeneratedCountLast(t: map<nat, Shipment>, ids: seq<nat>, base: Option<string>, render: string -> Option<string>)
    requires ids != [] && ids[|ids| - 1] in t
    requires forall i, j :: 0 <= i < j < |ids| ==> ids[i] != ids[j]
    ensures GeneratedCount(t, ids, base, render)
      == GeneratedCount(t, ids[..|ids| - 1], base, render) + (if EnsureQrCode(t[ids[|ids| - 1]], base, render).ok then 1 else 0)
  {
    var prefix, id := ids[..|ids| - 1], ids[|ids| - 1];
    assert id !in prefix;
    ApplyEachAt(t, prefix, ShipmentAfter(QrHelper(base, render)), id);
  }

  /**
   * When rendering never fails with an empty code and every shipment has a tracking number, the
   * batch leaves no candidates: a second run finds nothing to do.
   */
  lemma ProvisionedLeavesNoneMissing(t: map<nat, Shipment>, n: nat, base: Option<string>, render: string -> Option<string>)
    requires forall k :: k in t ==> t[k].trackingNumber != ""
    requires forall u :: Truthy(render(u))
    ensures MissingQr(Provisioned(t, MissingQr(t, n), base, render), n) == []
  {
    var ids := MissingQr(t, n);
    var after := Provisioned(t, ids, base, render);
    forall k | k in after && k < n
      ensures after[k].qrCodeUrl.Some?
    {
      ProvisionedAt(t, ids, base, render, k);
    }
    NoneMissing(after, n);
  }

  lemma {:induction false} NoneMissing(m: map<nat, Shipment>, n: nat)
    requires forall k :: k in m && k < n ==> m[k].qrCodeUrl.Some?
    ensures MissingQr(m, n) == []
  {
    if n > 0 {
      NoneMissing(m, n - 1);
    }
  }

  /** The helper's effect on one shipment of the batch, read off the shipment before the batch. */
  lemma ProvisionedAt(t: map<nat, Shipment>, ids: seq<nat>, base: Option<string>, render: string -> Option<string>, k: nat)
    requires forall i, j :: 0 <= i < j < |ids| ==> ids[i] < ids[j]
    requires k in t
    ensures k in ids ==> Provisioned(t, ids, base, render)[k] == EnsureQrCode(t[k], base, render).shipment
    ensures k !in ids ==> Provisioned(t, ids, base, render)[k] == t[k]
  {
    ApplyEachAt(t, ids, ShipmentAfter(QrHelper(base, render)), k);
  }

  /** Running the helper on a stored shipment keeps the collection's invariant. */
  lemma EnsureQrCodeKeepsValid(t: map<nat, Shipment>, n: nat, rn: nat, id: nat, base: Option<string>, render: string -> Option<string>)
    requires ValidTable(t, n, rn) && id in t
    ensures ValidTable(t[id := EnsureQrCode(t[id], base, render).shipment], n, rn)
  {
    var s := EnsureQrCode(t[id], base, render).shipment;
    assert s.id == id && s.trackingNumber == t[id].trackingNumber;
    SameTrackingNumberNotTaken(t, n, rn, id);
    ReplaceKeepsValid(t, n, rn, s);
  }

  /** The batch keeps the collection's invariant. */
  lemma {:induction false} ProvisionedKeepsValid(t: map<nat, Shipment>, n: nat, rn: nat, ids: seq<nat>, base: Option<string>, render: string -> Option<string>)
    requires ValidTable(t, n, rn)
    ensures ValidTable(Provisioned(t, ids, base, render), n, rn)
    decreases |ids|
  {
    if ids != [] {
      var prefix := ids[..|ids| - 1];
      ProvisionedKeepsValid(t, n, rn, prefix, base, render);
      var before := Provisioned(t, prefix, base, render);
      var id := ids[|ids| - 1];
      if id in before {
        EnsureQrCodeKeepsValid(before, n, rn, id, base, render);
      }
    }
  }
}
