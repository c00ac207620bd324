/** pkg/xactor/handler.go: an actor's dispatch tables. Requests are
    dispatched on their dynamic type (reflect.Type, here an abstract tag),
    with at most one synchronous and one asynchronous handler per type; a
    list of tickers runs after every event. Handlers act on the actor's
    state S. */
module XActorHandler {
  import opened Wrappers

  /** defaultActorTickerDuration: one minute, in nanoseconds. */
  const DefaultTickerDuration: int := 60_000_000_000

  /** The dynamic type of a request. */
  datatype TypeTag = TypeTag(name: string)

  /** A request or response passed as interface{}: its type and its data. */
  datatype Value = Value(t: TypeTag, data: seq<int>)

  type SyncHandler<!S> = (S, Value) -> (S, Result<Value>)
  type AsyncHandler<!S> = (S, Value) -> S
  type TickHandler<!S> = S -> S

  /** A handler and the request type it serves: SyncHandlerArgs and
      AsyncHandlerArgs. */
  datatype Registration<H> = Registration(h: H, t: TypeTag)
  type SyncHandlerArgs<!S> = Registration<SyncHandler<S>>
  type AsyncHandlerArgs<!S> = Registration<AsyncHandler<S>>

  /** SyncHandlerWrap: a handler for requests of type `tag`; a request of
      another type is answered with an error and changes nothing. */
  function SyncHandlerWrap<S(!new)>(tag: TypeTag, fn: SyncHandler<S>): (a: SyncHandlerArgs<S>)
    ensures a.t == tag
    ensures forall s: S, req: Value :: req.t == tag ==> a.h(s, req) == fn(s, req)
    ensures forall s: S, req: Value :: req.t != tag ==> a.h(s, req).0 == s && a.h(s, req).1.Err?
  {
    Registration((s, req: Value) =>
      if req.t != tag then (s, Err("sync handler req not type " + tag.name)) else fn(s, req), tag)
  }

  /** AsyncHandlerWrap: a request of another type is logged and skipped. */
  function AsyncHandlerWrap<S(!new)>(tag: TypeTag, fn: AsyncHandler<S>): (a: AsyncHandlerArgs<S>)
    ensures a.t == tag
    ensures forall s: S, req: Value :: req.t == tag ==> a.h(s, req) == fn(s, req)
    ensures forall s: S, req: Value :: req.t != tag ==> a.h(s, req) == s
  {
    Registration((s, req: Value) => if req.t != tag then s else fn(s, req), tag)
  }

  datatype ActorHandlerArgs<!S> = ActorHandlerArgs(syncs: seq<SyncHandlerArgs<S>>, asyncs: seq<AsyncHandlerArgs<S>>,
                                                  tickers: seq<TickHandler<S>>, tickerDuration: int)

  /** actorHandler. */
  datatype ActorHandler<!S> = ActorHandler(syncHandlers: map<TypeTag, SyncHandler<S>>,
                                          asyncHandlers: map<TypeTag, AsyncHandler<S>>,
                                          tickFns: seq<TickHandler<S>>, tickerDuration: int)

  /** The request types of a registration list, in order. */
  function Tags<H>(regs: seq<Registration<H>>): (r: seq<TypeTag>)
    ensures |r| == |regs| && forall i :: 0 <= i < |r| ==> r[i] == regs[i].t
  {
    if regs == [] then [] else Tags(regs[..|regs| - 1]) + [regs[|regs| - 1].t]
  }

  predicate Distinct(tags: seq<TypeTag>) {
    forall i, j :: 0 <= i < j < |tags| ==> tags[i] != tags[j]
  }

  lemma DistinctSnoc(tags: seq<TypeTag>, t: TypeTag)
    ensures Distinct(tags + [t]) <==> Distinct(tags) && t !in tags
  {
    var s := tags + [t];
    if Distinct(s) {
      assert s[..|tags|] == tags;
      forall i | 0 <= i < |tags|
        ensures tags[i] != t
      {
        assert s[i] == tags[i] && s[|tags|] == t;
      }
    }
  }

  /** The first tag, in list order, that repeats an earlier one. */
  function FirstRepeat(tags: seq<TypeTag>): (r: Option<TypeTag>)
    ensures r.None? <==> Distinct(tags)
    ensures r.Some? ==> r.value in tags
  {
    if tags == [] then None
    else
      var init, last := tags[..|tags| - 1], tags[|tags| - 1];
      assert tags == init + [last];
      DistinctSnoc(init, last);
      match FirstRepeat(init)
      case Some(t) => Some(t)
      case None => if last in init then Some(last) else None
  }

  /** The first repeat found in a prefix is the first repeat of the list. */
  lemma {:induction false} RepeatPersists(tags: seq<TypeTag>, k: nat)
    requires k <= |tags| && FirstRepeat(tags[..k]).Some?
    ensures FirstRepeat(tags) == FirstRepeat(tags[..k])
    decreases |tags| - k
  {
    if k < |tags| {
      assert tags[..k + 1][..k] == tags[..k];
      RepeatPersists(tags, k + 1);
    } else {
      assert tags[..k] == tags;
    }
  }

  /** The table a registration loop builds: each handler under its type,
      a later one under the same type replacing an earlier one. */
  function TableOf<H>(regs: seq<Registration<H>>): (m: map<TypeTag, H>)
    ensures forall t :: t in m <==> t in Tags(regs)
  {
    if regs == [] then map[]
    else
      var last := regs[|regs| - 1];
      TableOf(regs[..|regs| - 1])[last.t := last.h]
  }

  /** One of newActorHandler's tables: an error naming the first repeated
      type, if any. */
  function TableFor<H>(regs: seq<Registration<H>>, kind: string): (r: Result<map<TypeTag, H>>)
    ensures r.Ok? <==> Distinct(Tags(regs))
  {
    match FirstRepeat(Tags(regs))
    case Some(t) => Err(kind + " request[" + t.name + "] is repeated")
    case None => Ok(TableOf(regs))
  }

  /** newActorHandler: a zero tick interval becomes the default; a type
      registered twice, synchronous types checked first, is an error. */
  function NewActorHandler<S>(arg: ActorHandlerArgs<S>): (r: Result<ActorHandler<S>>)
    ensures r.Ok? <==> Distinct(Tags(arg.syncs)) && Distinct(Tags(arg.asyncs))
    ensures !Distinct(Tags(arg.syncs)) ==> r == Err(TableFor(arg.syncs, "sync").msg)
    ensures r.Ok? ==> r.value.tickFns == arg.tickers &&
                      r.value.tickerDuration == if arg.tickerDuration == 0 then DefaultTickerDuration else arg.tickerDuration
  {
    var duration := if arg.tickerDuration == 0 then DefaultTickerDuration else arg.tickerDuration;
    match TableFor(arg.syncs, "sync")
    case Err(e) => Err(e)
    case Ok(syncs) =>
      match TableFor(arg.asyncs, "async")
      case Err(e) => Err(e)
      case Ok(asyncs) => Ok(ActorHandler(syncs, asyncs, arg.tickers, duration))
  }

  lemma TagsPrefix<H>(regs: seq<Registration<H>>, k: nat)
    requires k <= |regs|
    ensures Tags(regs[..k]) == Tags(regs)[..k]
  {
  }

  lemma FirstRepeatSnoc(init: seq<TypeTag>, last: TypeTag)
    requires Distinct(init) && last in init
    ensures FirstRepeat(init + [last]) == Some(last)
  {
    var p := init + [last];
    assert p[..|p| - 1] == init && p[|p| - 1] == last;
  }

  /** A tag that repeats one in a repeat-free prefix is the first repeat. */
  lemma FirstRepeatAt(tags: seq<TypeTag>, i: nat)
    requires i < |tags| && Distinct(tags[..i]) && tags[i] in tags[..i]
    ensures FirstRepeat(tags) == Some(tags[i])
  {
    assert tags[..i + 1] == tags[..i] + [tags[i]];
    FirstRepeatSnoc(tags[..i], tags[i]);
    RepeatPersists(tags, i + 1);
  }

  /** The registration loop of newActorHandler, stopping at the first
      repeated type. */
  method BuildTable<H>(regs: seq<Registration<H>>, kind: string) returns (r: Result<map<TypeTag, H>>)
    ensures r == TableFor(regs, kind)
  {
    ghost var tags := Tags(regs);
    var m: map<TypeTag, H> := map[];
    var i := 0;
    while i < |regs|
      invariant 0 <= i <= |regs|
      invariant m == TableOf(regs[..i])
      invariant Distinct(tags[..i])
    {
      var reg := regs[i];
      assert regs[..i + 1][..i] == regs[..i];
      TagsPrefix(regs, i);
      if reg.t in m {
        FirstRepeatAt(tags, i);
        return Err(kind + " request[" + reg.t.name + "] is repeated");
      }
      DistinctSnoc(tags[..i], reg.t);
      assert tags[..i + 1] == tags[..i] + [reg.t];
      m := m[reg.t := reg.h];
      i := i + 1;
    }
    assert regs[..i] == regs;
    assert tags[..i] == tags;
    return Ok(m);
  }

  /** newActorHandler. */
  method BuildActorHandler<S>(arg: ActorHandlerArgs<S>) returns (r: Result<ActorHandler<S>>)
    ensures r == NewActorHandler(arg)
  {
    var duration := arg.tickerDuration;
    if duration == 0 {
      duration := DefaultTickerDuration;
    }
    var syncs := BuildTable(arg.syncs, "sync");
    if syncs.Err? {
      return Err(syncs.msg);
    }
    var asyncs := BuildTable(arg.asyncs, "async");
    if asyncs.Err? {
      return Err(asyncs.msg);
    }
    return Ok(ActorHandler(syncs.value, asyncs.value, arg.tickers, duration));
  }

  /** getSyncHandler / getAsyncHandler: None is Go's nil. */
  function GetSyncHandler<S>(handler: ActorHandler<S>, t: TypeTag): (r: Option<SyncHandler<S>>)
    ensures r.Some? <==> t in handler.syncHandlers
  {
    if t in handler.syncHandlers then Some(handler.syncHandlers[t]) else None
  }

  function GetAsyncHandler<S>(handler: ActorHandler<S>, t: TypeTag): (r: Option<AsyncHandler<S>>)
    ensures r.Some? <==> t in handler.asyncHandlers
  {
    if t in handler.asyncHandlers then Some(handler.asyncHandlers[t]) else None
  }

  /** With distinct types, the table holds each registered handler under
      its own type. */
  lemma {:induction false} TableHolds<H>(regs: seq<Registration<H>>, i: nat)
    requires Distinct(Tags(regs)) && i < |regs|
    ensures TableOf(regs)[regs[i].t] == regs[i].h
  {
    var n := |regs| - 1;
    if i < n {
      var init := regs[..n];
      TagsPrefix(regs, n);
      TableHolds(init, i);
      assert Tags(regs)[i] != Tags(regs)[n];
    }
  }

  /** A built handler finds every registered handler under its type, and
      nothing under a type that was not registered. */
  lemma Lookups<S>(arg: ActorHandlerArgs<S>, t: TypeTag)
    requires NewActorHandler(arg).Ok?
    ensures forall i :: 0 <= i < |arg.syncs| && arg.syncs[i].t == t ==>
              GetSyncHandler(NewActorHandler(arg).value, t) == Some(arg.syncs[i].h)
    ensures forall i :: 0 <= i < |arg.asyncs| && arg.asyncs[i].t == t ==>
              GetAsyncHandler(NewActorHandler(arg).value, t) == Some(arg.asyncs[i].h)
    ensures t !in Tags(arg.syncs) ==> GetSyncHandler(NewActorHandler(arg).value, t) == None
    ensures t !in Tags(arg.asyncs) ==> GetAsyncHandler(NewActorHandler(arg).value, t) == None
  {
    forall i | 0 <= i < |arg.syncs| && arg.syncs[i].t == t {
      TableHolds(arg.syncs, i);
    }
    forall i | 0 <= i < |arg.asyncs| && arg.asyncs[i].t == t {
      TableHolds(arg.asyncs, i);
    }
  }

  /** A request routed through a wrapped synchronous handler reaches the
      wrapped function. */
  lemma DispatchReachesWrapped<S(!new)>(tag: TypeTag, fn: SyncHandler<S>, s: S, req: Value)
    requires req.t == tag
    ensures var arg := ActorHandlerArgs([SyncHandlerWrap(tag, fn)], [], [], 0);
            NewActorHandler(arg).Ok? &&
            GetSyncHandler(NewActorHandler(arg).value, req.t).Some? &&
            GetSyncHandler(NewActorHandler(arg).value, req.t).value(s, req) == fn(s, req)
  {
    var arg := ActorHandlerArgs([SyncHandlerWrap(tag, fn)], [], [], 0);
    assert Tags(arg.syncs) == [tag];
    Lookups(arg, tag);
  }

  /** The actor state after every ticker has run once, in order. */
  function RunTickers<S>(fns: seq<TickHandler<S>>, s: S): S {
    if fns == [] then s else fns[|fns| - 1](RunTickers(fns[..|fns| - 1], s))
  }

  /** Registration order is running order: the tickers of a longer list
      run after those of its prefix. */
  lemma {:induction false} RunTickersAppend<S>(a: seq<TickHandler<S>>, b: seq<TickHandler<S>>, s: S)
    ensures RunTickers(a + b, s) == RunTickers(b, RunTickers(a, s))
    decreases |b|
  {
    if b == [] {
      assert a + b == a;
    } else {
      var b' := b[..|b| - 1];
      assert (a + b)[..|a + b| - 1] == a + b';
      RunTickersAppend(a, b', s);
    }
  }

  /** tick: the loop over tickFns. */
  method Tick<S>(handler: ActorHandler<S>, s: S) returns (t: S)
    ensures t == RunTickers(handler.tickFns, s)
  {
    t := s;
    var fns := handler.tickFns;
    for i := 0 to |fns|
      invariant t == RunTickers(fns[..i], s)
    {
      assert fns[..i + 1][..i] == fns[..i];
      t := fns[i](t);
    }
    assert fns[..|fns|] == fns;
  }
}
