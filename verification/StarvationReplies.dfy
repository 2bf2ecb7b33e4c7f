/**
 The replies of a board to the L7 starvation recovery probe, and what the probe reads from one reply.
 A board may answer anything.
 */
module StarvationReplies {
  import opened Common

  datatype Kind = Fine | Timeout | TransportError | Ran

  /** One die as the agent reports it. The two presence flags are the marker bytes of its words. */
  datatype Die = Die(linkOk: bool, axiPresent: bool, emitPresent: bool,
                     wedgeAny: bool, healthy: bool, starvedAny: bool)

  datatype Dies = Dies(a: Die, b: Die)

  /** A marker-bearing JSON reply; an error reply carries no dies. */
  datatype Json = Json(ok: bool, readerDead: bool, missingMarkers: bool, refused: bool, wedged: bool,
                       dies: Option<Dies>, good: nat)

  datatype Reply = Reply(kind: Kind, json: Option<Json>)

  // ---------- reading replies ----------

  datatype Signature = Signature(wedgeAny: bool, unhealthy: bool, starvedAny: bool)

  function WedgeSignature(d: Die): Option<Signature> {
    if !(d.axiPresent && d.emitPresent) then None
    else Some(Signature(d.wedgeAny, !d.healthy, d.starvedAny))
  }

  predicate Present(s: Signature) {
    s.wedgeAny || s.unhealthy || s.starvedAny
  }

  predicate Marked(r: Reply) {
    r.json.Some?
  }

  /** Both dies are reported with both presence markers, so their signatures can be read. */
  predicate Legible(r: Reply) {
    && Marked(r) && r.json.value.dies.Some?
    && WedgeSignature(r.json.value.dies.value.a).Some? && WedgeSignature(r.json.value.dies.value.b).Some?
  }

  predicate AnySignature(r: Reply)
    requires Legible(r)
  {
    var d := r.json.value.dies.value;
    Present(WedgeSignature(d.a).value) || Present(WedgeSignature(d.b).value)
  }

  /** The baseline test looks at die B only when die A is clear, and fails on a signature that is missing. */
  predicate BaselineBreaks(d: Dies) {
    var a, b := WedgeSignature(d.a), WedgeSignature(d.b);
    a.None? || (!Present(a.value) && b.None?)
  }

  /** The watch test looks at die B only when die A's sticky wedge bit is down. */
  predicate WatchBreaks(d: Dies) {
    var a, b := WedgeSignature(d.a), WedgeSignature(d.b);
    a.None? || (!a.value.wedgeAny && b.None?)
  }

  /** The watch loop's reading: it ignores the starvation bit. */
  predicate LiveClear(r: Reply)
    requires Legible(r)
  {
    var d := r.json.value.dies.value;
    !(d.a.wedgeAny || d.b.wedgeAny || !d.a.healthy || !d.b.healthy)
  }

  predicate InstrumentProven(r: Reply) {
    && Marked(r) && !r.json.value.readerDead && !r.json.value.missingMarkers
    && r.json.value.dies.Some? && r.json.value.dies.value.a.linkOk && r.json.value.dies.value.b.linkOk
  }

  // ---------- one reply to one command ----------

  /** The staged agent ran and shows its marker. */
  predicate StagedOk(r: Reply) {
    r.kind in {Fine, Ran} && Marked(r)
  }

  predicate ProvenAndClear(r: Reply) {
    InstrumentProven(r) && Legible(r) && !AnySignature(r)
  }

  /** A selftest that gets as far as the baseline test, or to its missing dies, and fails there. */
  predicate BrokenSelftest(r: Reply) {
    && Marked(r) && !r.json.value.readerDead && !r.json.value.missingMarkers
    && (r.json.value.dies.Some? ==>
          var d := r.json.value.dies.value; d.a.linkOk && d.b.linkOk && BaselineBreaks(d))
  }

  predicate ArmedOk(r: Reply) {
    Marked(r) && r.json.value.ok
  }

  /** A burst without any wedge signature. */
  predicate QuietBurst(r: Reply) {
    Legible(r) && !r.json.value.refused && !r.json.value.wedged && !AnySignature(r)
  }

  /** A burst that hung, or that left a wedge signature. */
  predicate WedgeBurst(r: Reply) {
    Marked(r) && !r.json.value.refused && (r.json.value.wedged || (Legible(r) && AnySignature(r)))
  }

  predicate RefusedBurst(r: Reply) {
    Marked(r) && r.json.value.refused
  }

  /** A burst reply whose dies are read although it has none. */
  predicate BrokenBurst(r: Reply) {
    Marked(r) && !r.json.value.refused && !r.json.value.wedged && r.json.value.dies.None?
  }

  predicate ClearReading(r: Reply) {
    Legible(r) && LiveClear(r)
  }

  /** A reading the watch test cannot be evaluated on. */
  predicate BrokenReading(r: Reply) {
    Marked(r) && (r.json.value.dies.Some? ==> WatchBreaks(r.json.value.dies.value))
  }

  /** The wedge still shows; die A's sticky bit is enough even when die B cannot be read. */
  predicate HeldReading(r: Reply) {
    Marked(r) && !BrokenReading(r) && !ClearReading(r)
  }

  predicate GoodTraffic(r: Reply) {
    Marked(r) && !r.json.value.wedged && r.json.value.good > 0
  }

  predicate LiveSelftest(r: Reply) {
    Marked(r) && !r.json.value.readerDead
  }

  /** What the signature tests read, field by field. */
  lemma ReplyFields(r: Reply)
    requires Marked(r) && r.json.value.dies.Some?
    ensures var a, b := r.json.value.dies.value.a, r.json.value.dies.value.b;
            && (Legible(r) <==> a.axiPresent && a.emitPresent && b.axiPresent && b.emitPresent)
            && (Legible(r) ==>
                  && (AnySignature(r) <==> a.wedgeAny || !a.healthy || a.starvedAny ||
                                           b.wedgeAny || !b.healthy || b.starvedAny)
                  && (LiveClear(r) <==> !a.wedgeAny && a.healthy && !b.wedgeAny && b.healthy))
            && (BrokenReading(r) <==> || !a.axiPresent || !a.emitPresent
                                      || (!a.wedgeAny && (!b.axiPresent || !b.emitPresent)))
  {
  }
}
