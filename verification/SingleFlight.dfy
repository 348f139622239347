/**
 The lookups as a protocol of concurrent threads: asnResolver.Lookup (asn.go), whose computation
 calls a second cache, and whoisCache.Lookup (signals.go), whose computation takes a permit. Every
 step is one atomic action of one thread: taking a mutex, one section under it, waiting on a call,
 an answer from outside, or closing a call. The three caches are those of cache.go.
 */
module SingleFlight {
  import opened Common
  import opened TtlCache

  datatype Cache = Origin | Org | Whois

  datatype AsnInfo = AsnInfo(asn: int, org: string, prefix: string, rir: string, registered: string, country: string)

  const NO_INFO := AsnInfo(0, "", "", "", "", "")

  datatype Value = Resolved(info: AsnInfo, ok: bool) | Text(text: string)

  /** What an unwritten value field reads as. */
  function ZeroValue(c: Cache): Value {
    if c == Origin then Resolved(NO_INFO, false) else Text("")
  }

  const SECOND: int := 1_000_000_000
  const ASN_TTL: int := 12 * 3600 * SECOND
  const ASN_ERROR_TTL: int := 60 * SECOND
  const WHOIS_TTL: int := 24 * 3600 * SECOND
  const WHOIS_ERROR_TTL: int := 300 * SECOND
  const MAX_IN_FLIGHT: nat := 4

  function MaxEntries(c: Cache): int {
    match c
    case Origin => 50_000
    case Org => 8_192
    case Whois => 20_000
  }

  /** Where a thread is inside one Do. Slots of nested computations that have not begun are Idle. */
  datatype Phase =
    | Idle
    | WantLock
    | Inspect
    | Await(call: nat)
    | Run(call: nat)
    | Nested(call: nat, info: AsnInfo)
    | Query(call: nat)
    | Release(call: nat, val: Value, ttl: int)
    | WantPublish(call: nat, val: Value, ttl: int)
    | Store(call: nat, val: Value, ttl: int)
    | Evict(call: nat, val: Value)
    | Remove(call: nat, val: Value)
    | Close(call: nat, val: Value)
    | Returned(val: Value)
  {
    predicate HoldsLock() { Inspect? || Store? || Evict? || Remove? }

    predicate WantsLock() { WantLock? || WantPublish? }

    /** Inside the computation. */
    predicate Computing() { Run? || Nested? || Query? || Release? }

    /** The leader of a call, up to and including its delete from the in-flight map. */
    predicate Registered() { Computing() || WantPublish? || Store? || Evict? || Remove? }

    predicate Leads() { Registered() || Close? }

    predicate HasPermit() { Query? || Release? }

    /** Has a computed value in hand. */
    predicate Computed() { Release? || WantPublish? || Store? || Evict? || Remove? || Close? }
  }

  /** How a thread came by the value it returned. */
  datatype Via = Unset | FromCall(call: nat) | FromCache(at: int, pub: Publication)

  datatype Publication = Publication(call: nat, at: int, ttl: int)

  datatype Frame = Frame(cache: Cache, key: string, phase: Phase, via: Via)

  datatype CallRecord = CallRecord(cache: Cache, key: string, leader: nat, val: Option<Value>, done: bool)

  /** `source` is history: which publication stands behind each key. */
  datatype CacheState = CacheState(
    m: map<string, Entry<Value>>,
    inflight: map<string, nat>,
    holder: Option<nat>,
    source: map<string, Publication>)

  /**
   Frame f < n is thread f's own Do; frame n + f is the slot for the Do that its computation may
   call. `runs` is history: the value each call's computation returned.
   */
  datatype State = State(
    n: nat,
    clock: int,
    origin: CacheState,
    org: CacheState,
    whois: CacheState,
    calls: seq<CallRecord>,
    frames: seq<Frame>,
    permits: nat,
    runs: map<nat, Value>)
  {
    function At(c: Cache): CacheState {
      match c
      case Origin => origin
      case Org => org
      case Whois => whois
    }

    function With(c: Cache, x: CacheState): State {
      match c
      case Origin => this.(origin := x)
      case Org => this.(org := x)
      case Whois => this.(whois := x)
    }

    /** Frame f moves on to phase p. */
    function To(f: nat, p: Phase): State
      requires f < |frames|
    {
      this.(frames := frames[f := frames[f].(phase := p)])
    }

    function Return(f: nat, v: Value, via: Via): State
      requires f < |frames|
    {
      this.(frames := frames[f := frames[f].(phase := Returned(v), via := via)])
    }

    /** The computation of call id ends with (v, ttl). */
    function Computed(f: nat, id: nat, v: Value, ttl: int): State
      requires f < |frames|
    {
      To(f, WantPublish(id, v, ttl)).(runs := runs[id := v])
    }
  }

  datatype Action =
    | Tick(now: int)
    | Acquire(f: nat)
    | Look(f: nat)
    | Wake(f: nat)
    | OriginAnswer(f: nat, origin: OriginReply)
    | Resume(f: nat)
    | OrgAnswer(f: nat, reply: Option<string>)
    | TakePermit(f: nat)
    | Cancel(f: nat)
    | WhoisAnswer(f: nat, reply: Option<string>)
    | ReturnPermit(f: nat)
    | StoreValue(f: nat)
    | EvictEntries(f: nat, kept: map<string, Entry<Value>>)
    | RemoveCall(f: nat)
    | CloseCall(f: nat)

  /** A failed query, an answer without an origin AS, or one naming an AS. */
  datatype OriginReply = Failed | NoOrigin | Found(info: AsnInfo)

  function AsnKey(asn: int): string {
    if asn < 0 then "-" + Digits(-asn) else Digits(asn)
  }

  function Digits(n: nat): string {
    if n < 10 then ["0123456789"[n]] else Digits(n / 10) + ["0123456789"[n % 10]]
  }

  ghost predicate Enabled(s: State, a: Action) {
    if a.Tick? then a.now >= s.clock
    else
      && a.f < |s.frames|
      && var fr := s.frames[a.f];
         var c := s.At(fr.cache);
         match a
         case Acquire(_) => fr.phase.WantsLock() && c.holder == None
         case Look(_) => fr.phase.Inspect?
         case Wake(_) => fr.phase.Await? && fr.phase.call < |s.calls| && s.calls[fr.phase.call].done
         case OriginAnswer(f, origin) =>
           && fr.phase.Run? && fr.cache == Origin && s.n + f < |s.frames|
           && (origin.Found? ==> origin.info.asn != 0)
         case Resume(f) => fr.phase.Nested? && s.n + f < |s.frames| && s.frames[s.n + f].phase.Returned?
         case OrgAnswer(_, _) => fr.phase.Run? && fr.cache == Org
         case TakePermit(_) => fr.phase.Run? && fr.cache == Whois && s.permits < MAX_IN_FLIGHT
         case Cancel(_) => fr.phase.Run? && fr.cache == Whois
         case WhoisAnswer(_, _) => fr.phase.Query?
         case ReturnPermit(_) => fr.phase.Release? && s.permits > 0
         case StoreValue(_) => fr.phase.Store? && fr.phase.call < |s.calls|
         case EvictEntries(_, kept) => fr.phase.Evict? && Evicted(c.m, s.clock, MaxEntries(fr.cache), kept)
         case RemoveCall(_) => fr.phase.Remove?
         case CloseCall(_) => fr.phase.Close? && fr.phase.call < |s.calls|
  }

  /** The first section of Do: a live entry, a call under way, or a new call that this frame leads. */
  function AfterLook(s: State, f: nat): State
    requires f < |s.frames|
  {
    var fr := s.frames[f];
    var c := s.At(fr.cache);
    var free := s.With(fr.cache, c.(holder := None));
    if fr.key in c.m && s.clock < c.m[fr.key].expires then
      var pub := if fr.key in c.source then c.source[fr.key] else Publication(0, 0, 0);
      free.Return(f, c.m[fr.key].val, FromCache(s.clock, pub))
    else if fr.key in c.inflight then
      free.To(f, Await(c.inflight[fr.key]))
    else
      var id := |s.calls|;
      s.With(fr.cache, c.(holder := None, inflight := c.inflight[fr.key := id]))
       .To(f, Run(id))
       .(calls := s.calls + [CallRecord(fr.cache, fr.key, f, None, false)])
  }

  function AfterStore(s: State, f: nat): State
    requires f < |s.frames| && s.frames[f].phase.Store? && s.frames[f].phase.call < |s.calls|
  {
    var fr := s.frames[f];
    var c := s.At(fr.cache);
    var Store(id, v, ttl) := fr.phase;
    var written := s.(calls := s.calls[id := s.calls[id].(val := Some(v))]);
    if ttl > 0 then
      written.With(fr.cache, c.(m := c.m[fr.key := Entry(v, s.clock + ttl)],
                                source := c.source[fr.key := Publication(id, s.clock, ttl)]))
             .To(f, Evict(id, v))
    else
      written.To(f, Remove(id, v))
  }

  ghost function After(s: State, a: Action): State
    requires Enabled(s, a)
  {
    if a.Tick? then s.(clock := a.now)
    else
      var f, fr := a.f, s.frames[a.f];
      var c := s.At(fr.cache);
      match a
      case Acquire(_) =>
        s.With(fr.cache, c.(holder := Some(f)))
         .To(f, if fr.phase.WantLock? then Inspect else Store(fr.phase.call, fr.phase.val, fr.phase.ttl))
      case Look(_) => AfterLook(s, f)
      case Wake(_) =>
        var id := fr.phase.call;
        s.Return(f, if s.calls[id].val.Some? then s.calls[id].val.value else ZeroValue(fr.cache), FromCall(id))
      case OriginAnswer(_, Failed) => s.Computed(f, fr.phase.call, Resolved(NO_INFO, false), ASN_ERROR_TTL)
      case OriginAnswer(_, NoOrigin) => s.Computed(f, fr.phase.call, Resolved(NO_INFO, true), ASN_TTL)
      case OriginAnswer(_, Found(info)) =>
        var nested := s.To(f, Nested(fr.phase.call, info));
        nested.(frames := nested.frames[s.n + f := Frame(Org, AsnKey(info.asn), WantLock, Unset)])
      case Resume(_) =>
        var v := s.frames[s.n + f].phase.val;
        var org := if v.Text? then v.text else "";
        s.Computed(f, fr.phase.call, Resolved(fr.phase.info.(org := org), true), ASN_TTL)
      case OrgAnswer(_, None) => s.Computed(f, fr.phase.call, Text(""), ASN_ERROR_TTL)
      case OrgAnswer(_, Some(name)) => s.Computed(f, fr.phase.call, Text(name), ASN_TTL)
      case TakePermit(_) => s.To(f, Query(fr.phase.call)).(permits := s.permits + 1)
      case Cancel(_) => s.Computed(f, fr.phase.call, Text(""), 0)
      case WhoisAnswer(_, reply) =>
        var v := Text(if reply.Some? then reply.value else "");
        s.To(f, Release(fr.phase.call, v, if reply.Some? then WHOIS_TTL else WHOIS_ERROR_TTL))
         .(runs := s.runs[fr.phase.call := v])
      case ReturnPermit(_) =>
        s.To(f, WantPublish(fr.phase.call, fr.phase.val, fr.phase.ttl)).(permits := s.permits - 1)
      case StoreValue(_) => AfterStore(s, f)
      case EvictEntries(_, kept) =>
        s.With(fr.cache, c.(m := kept)).To(f, Remove(fr.phase.call, fr.phase.val))
      case RemoveCall(_) =>
        s.With(fr.cache, c.(inflight := c.inflight - {fr.key}, holder := None))
         .To(f, Close(fr.phase.call, fr.phase.val))
      case CloseCall(_) =>
        s.Return(f, fr.phase.val, FromCall(fr.phase.call))
         .(calls := s.calls[fr.phase.call := s.calls[fr.phase.call].(done := true)])
  }

  // ---------- runs ----------

  predicate Initial(s: State) {
    && |s.frames| == 2 * s.n
    && (forall f :: 0 <= f < s.n ==>
          && s.frames[f].phase == WantLock && s.frames[f].via == Unset
          && s.frames[f].cache != Org)
    && (forall f :: s.n <= f < 2 * s.n ==> s.frames[f] == Frame(Org, "", Idle, Unset))
    && (forall c :: s.At(c) == CacheState(map[], map[], None, map[]))
    && s.calls == [] && s.permits == 0 && s.runs == map[]
  }

  ghost predicate Steps(s: State, acts: seq<Action>)
    decreases |acts|
  {
    acts != [] ==> Enabled(s, acts[0]) && Steps(After(s, acts[0]), acts[1..])
  }

  ghost function Exec(s: State, acts: seq<Action>): State
    requires Steps(s, acts)
    decreases |acts|
  {
    if acts == [] then s else Exec(After(s, acts[0]), acts[1..])
  }

  ghost predicate Reachable(s: State) {
    exists s0, acts :: Initial(s0) && Steps(s0, acts) && Exec(s0, acts) == s
  }
}
