/**
 Aggregation of a provider's event stream into one response. The reference reads the whole
 list of handled events: a tool call's arguments are the concatenation of all chunks with its
 id, its name the last one announced, and calls appear in the order of their first event.
 */
module Stream {
  import opened Basics

  datatype StopReason = EndOfTurn | MaxTokens | WantsTool | Cancel | Error

  datatype Usage = Usage(prompt: nat, completion: nat)

  datatype Event =
    | TokenDelta(text: string)
    | ToolCallDelta(id: string, name: Option<string>, chunk: string)
    | UsageReport(usage: Usage)
    | Done(reason: StopReason)
    | StreamError(message: string)

  /** What the event iterator yields: an event, or a provider error. */
  datatype Item = Event(event: Event) | Failed(message: string)

  datatype ToolCall = ToolCall(id: string, name: string, arguments: string)

  datatype Output = Output(text: string, toolCalls: seq<ToolCall>, usage: Option<Usage>, stop: StopReason, cancelled: bool)

  datatype Result = Ok(output: Output) | Err(message: string)

  // ----- reference: what a list of events means -----

  function TextOf(es: seq<Event>): string
  {
    if es == [] then ""
    else TextOf(es[..|es| - 1]) + if es[|es| - 1].TokenDelta? then es[|es| - 1].text else ""
  }

  function ArgumentsOf(es: seq<Event>, id: string): string
  {
    if es == [] then ""
    else
      var e := es[|es| - 1];
      ArgumentsOf(es[..|es| - 1], id) + if e.ToolCallDelta? && e.id == id then e.chunk else ""
  }

  function NameOf(es: seq<Event>, id: string): string
  {
    if es == [] then ""
    else
      var e := es[|es| - 1];
      if e.ToolCallDelta? && e.id == id && e.name.Some? then e.name.value else NameOf(es[..|es| - 1], id)
  }

  /** Ids in the order of their first event. */
  function IdsOf(es: seq<Event>): (ids: seq<string>)
    ensures forall i, j :: 0 <= i < j < |ids| ==> ids[i] != ids[j]
    ensures forall id :: id in ids <==> exists e :: e in es && e.ToolCallDelta? && e.id == id
  {
    if es == [] then []
    else
      var init, e := es[..|es| - 1], es[|es| - 1];
      var ids := IdsOf(init);
      assert es == init + [e];
      if e.ToolCallDelta? && e.id !in ids then ids + [e.id] else ids
  }

  /** The last positive count reported, or zero. */
  function LastPositive(es: seq<Event>, prompt: bool): nat
  {
    if es == [] then 0
    else
      var e := es[|es| - 1];
      if e.UsageReport? && (if prompt then e.usage.prompt else e.usage.completion) > 0
      then (if prompt then e.usage.prompt else e.usage.completion)
      else LastPositive(es[..|es| - 1], prompt)
  }

  predicate HasUsage(es: seq<Event>)
  {
    exists e :: e in es && e.UsageReport?
  }

  function UsageOf(es: seq<Event>): Option<Usage>
  {
    if HasUsage(es) then Some(Usage(LastPositive(es, true), LastPositive(es, false))) else None
  }

  function CallsOf(es: seq<Event>): (r: seq<ToolCall>)
    ensures |r| == |IdsOf(es)|
    ensures forall i :: 0 <= i < |r| ==> r[i] == ToolCall(IdsOf(es)[i], NameOf(es, IdsOf(es)[i]), ArgumentsOf(es, IdsOf(es)[i]))
  {
    var ids := IdsOf(es);
    seq(|ids|, i requires 0 <= i < |ids| => ToolCall(ids[i], NameOf(es, ids[i]), ArgumentsOf(es, ids[i])))
  }

  /** Calls with an empty id or without a name are dropped. */
  function Named(calls: seq<ToolCall>): (r: seq<ToolCall>)
    ensures forall c :: c in r <==> c in calls && c.id != "" && c.name != ""
  {
    if calls == [] then []
    else
      var init, c := calls[..|calls| - 1], calls[|calls| - 1];
      assert calls == init + [c];
      if c.id != "" && c.name != "" then Named(init) + [c] else Named(init)
  }

  /** How a stream ends, and how many of its events were handled before that. */
  datatype Ending = Exhausted(n: nat) | Interrupted(n: nat) | Finished(n: nat, reason: StopReason) | Broken(n: nat, message: string)

  /** `cancelAt` is the first item at which the caller's cancellation is seen. */
  function EndOf(items: seq<Item>, cancelAt: nat, i: nat): (e: Ending)
    requires i <= |items|
    ensures i <= e.n <= |items|
    ensures forall k :: i <= k < e.n ==> items[k].Event? && k != cancelAt && !items[k].event.Done? && !items[k].event.StreamError?
    decreases |items| - i
  {
    if i == |items| then Exhausted(i)
    else if i == cancelAt then Interrupted(i)
    else match items[i]
      case Failed(m) => Broken(i, m)
      case Event(Done(reason)) => Finished(i, reason)
      case Event(StreamError(m)) => Broken(i, m)
      case Event(_) => EndOf(items, cancelAt, i + 1)
  }

  function Events(items: seq<Item>, n: nat): (es: seq<Event>)
    requires n <= |items| && forall k :: 0 <= k < n ==> items[k].Event?
    ensures |es| == n && forall k :: 0 <= k < n ==> es[k] == items[k].event
  {
    seq(n, k requires 0 <= k < n => items[k].event)
  }

  /** The response a stream stands for. */
  function ResponseOf(items: seq<Item>, cancelAt: nat): (r: Result)
  {
    var end := EndOf(items, cancelAt, 0);
    if end.Broken? then Err(end.message)
    else
      var es := Events(items, end.n);
      Ok(Output(TextOf(es), Named(CallsOf(es)), UsageOf(es),
                match end { case Interrupted(_) => Cancel case Finished(_, r) => r case _ => EndOfTurn },
                end.Interrupted?))
  }

  // ----- the aggregator -----

  class Aggregator {
    var text: string
    var partials: seq<ToolCall>
    var usage: Option<Usage>
    // the events handled so far
    ghost var handled: seq<Event>

    ghost predicate Valid()
      reads this
    {
      text == TextOf(handled) && partials == CallsOf(handled) && usage == UsageOf(handled)
    }

    constructor ()
      ensures Valid() && handled == []
    {
      text := "";
      partials := [];
      usage := None;
      handled := [];
    }

    /** One event other than Done and StreamError. */
    method Handle(e: Event)
      requires Valid() && !e.Done? && !e.StreamError?
      modifies this
      ensures Valid() && handled == old(handled) + [e]
    {
      hide TextOf, CallsOf, UsageOf;
      ghost var es := handled;
      handled := handled + [e];
      match e {
        case TokenDelta(t) =>
          text := text + t;
        case ToolCallDelta(id, name, chunk) =>
          partials := MergeDelta(partials, id, name, chunk, es);
        case UsageReport(u) =>
          usage := MergeUsage(usage, u, es);
        case _ =>
      }
      TextStep(es, e);
      if !e.UsageReport? {
        UsageOther(es, e);
      }
      if !e.ToolCallDelta? {
        CallsOther(es, e);
      }
    }
  }

  /** Extends the call with this id, or starts it. */
  method MergeDelta(partials: seq<ToolCall>, id: string, name: Option<string>, chunk: string, ghost es: seq<Event>)
    returns (r: seq<ToolCall>)
    requires partials == CallsOf(es)
    ensures r == CallsOf(es + [ToolCallDelta(id, name, chunk)])
  {
    r := partials;
    var k := Find(r, id);
    if k == |r| {
      CallsNew(es, ToolCallDelta(id, name, chunk));
      r := r + [ToolCall(id, "", "")];
    } else {
      CallsOld(es, ToolCallDelta(id, name, chunk), k);
    }
    var p := r[k];
    if name.Some? {
      p := p.(name := name.value);
    }
    r := r[k := p.(arguments := p.arguments + chunk)];
  }

  method MergeUsage(usage: Option<Usage>, u: Usage, ghost es: seq<Event>) returns (r: Option<Usage>)
    requires usage == UsageOf(es)
    ensures r == UsageOf(es + [UsageReport(u)])
  {
    r := usage;
    if r.Some? {
      if u.prompt > 0 {
        r := Some(r.value.(prompt := u.prompt));
      }
      if u.completion > 0 {
        r := Some(r.value.(completion := u.completion));
      }
    } else {
      r := Some(u);
    }
    UsageMerged(es, u);
  }

  /** Index of the call with this id, or the length. */
  method Find(calls: seq<ToolCall>, id: string) returns (k: nat)
    ensures k <= |calls| && (k < |calls| ==> calls[k].id == id)
    ensures forall i :: 0 <= i < k ==> calls[i].id != id
  {
    k := 0;
    while k < |calls| && calls[k].id != id
      invariant k <= |calls| && forall i :: 0 <= i < k ==> calls[i].id != id
    {
      k := k + 1;
    }
  }

  lemma TextStep(es: seq<Event>, e: Event)
    ensures TextOf(es + [e]) == TextOf(es) + if e.TokenDelta? then e.text else ""
  {
    assert (es + [e])[..|es|] == es;
  }

  lemma UsageOther(es: seq<Event>, e: Event)
    requires !e.UsageReport?
    ensures UsageOf(es + [e]) == UsageOf(es)
  {
    var all := es + [e];
    assert all[..|es|] == es;
    assert forall u :: u in all <==> u in es || u == e;
  }

  lemma UsageMerged(es: seq<Event>, u: Usage)
    ensures UsageOf(es + [UsageReport(u)]) ==
            Some(Usage(if u.prompt > 0 then u.prompt else LastPositive(es, true),
                       if u.completion > 0 then u.completion else LastPositive(es, false)))
    ensures !HasUsage(es) ==> LastPositive(es, true) == 0 && LastPositive(es, false) == 0
  {
    var all := es + [UsageReport(u)];
    assert all[..|es|] == es;
    assert all[|es|] in all;
    if !HasUsage(es) {
      NoUsageZero(es, true);
      NoUsageZero(es, false);
    }
  }

  lemma {:induction false} NoUsageZero(es: seq<Event>, prompt: bool)
    requires !HasUsage(es)
    ensures LastPositive(es, prompt) == 0
  {
    if es != [] {
      assert es[|es| - 1] in es;
      assert forall e :: e in es[..|es| - 1] ==> e in es;
      NoUsageZero(es[..|es| - 1], prompt);
    }
  }

  lemma CallsOther(es: seq<Event>, e: Event)
    requires !e.ToolCallDelta?
    ensures CallsOf(es + [e]) == CallsOf(es)
  {
    assert (es + [e])[..|es|] == es;
    OtherIds(es, e);
  }

  /** A first chunk starts a new call at the end. */
  lemma CallsNew(es: seq<Event>, e: Event)
    requires e.ToolCallDelta? && e.id !in IdsOf(es)
    ensures CallsOf(es + [e]) == CallsOf(es) + [ToolCall(e.id, if e.name.Some? then e.name.value else "", "" + e.chunk)]
  {
    var all := es + [e];
    assert all[..|es|] == es;
    UnseenId(es, e.id);
    OtherIds(es, e);
  }

  /** A later chunk extends its call in place. */
  lemma CallsOld(es: seq<Event>, e: Event, k: nat)
    requires e.ToolCallDelta? && k < |IdsOf(es)| && IdsOf(es)[k] == e.id
    ensures var c := CallsOf(es)[k];
            CallsOf(es + [e]) == CallsOf(es)[k := ToolCall(e.id, if e.name.Some? then e.name.value else c.name, c.arguments + e.chunk)]
  {
    var all := es + [e];
    assert all[..|es|] == es;
    OtherIds(es, e);
  }

  lemma OtherIds(es: seq<Event>, e: Event)
    ensures forall id :: (e.ToolCallDelta? && id == e.id) ||
              (NameOf(es + [e], id) == NameOf(es, id) && ArgumentsOf(es + [e], id) == ArgumentsOf(es, id))
  {
    assert (es + [e])[..|es|] == es;
  }

  lemma {:induction false} UnseenId(es: seq<Event>, id: string)
    requires id !in IdsOf(es)
    ensures NameOf(es, id) == "" && ArgumentsOf(es, id) == ""
  {
    if es != [] {
      UnseenId(es[..|es| - 1], id);
    }
  }

  lemma EventsPrefix(items: seq<Item>, n: nat, i: nat)
    requires i < n <= |items| && forall k :: 0 <= k < n ==> items[k].Event?
    ensures Events(items, n)[..i + 1] == Events(items, n)[..i] + [items[i].event]
  {
  }

  /** Drives a stream to its end. */
  method AggregateSync(items: seq<Item>, cancelAt: nat) returns (r: Result)
    ensures r == ResponseOf(items, cancelAt)
  {
    hide TextOf, CallsOf, UsageOf, Named, Events;
    var agg := new Aggregator();
    var stop, cancelled := EndOfTurn, false;
    var i := 0;
    ghost var end := EndOf(items, cancelAt, 0);
    while i < |items|
      invariant 0 <= i <= |items| && fresh(agg) && agg.Valid() && EndOf(items, cancelAt, i) == end
      invariant i <= end.n && agg.handled == Events(items, end.n)[..i]
    {
      if i == cancelAt {
        stop, cancelled := Cancel, true;
        break;
      }
      if items[i].Failed? {
        return Err(items[i].message);
      }
      var e := items[i].event;
      if e.StreamError? {
        return Err(e.message);
      }
      if e.Done? {
        stop := e.reason;
        break;
      }
      EventsPrefix(items, end.n, i);
      agg.Handle(e);
      i := i + 1;
    }
    assert i == end.n && Events(items, end.n)[..i] == Events(items, end.n);
    var calls := Collect(agg.partials);
    r := Ok(Output(agg.text, calls, agg.usage, stop, cancelled));
  }

  method Collect(partials: seq<ToolCall>) returns (calls: seq<ToolCall>)
    ensures calls == Named(partials)
  {
    calls := [];
    for i := 0 to |partials|
      invariant calls == Named(partials[..i])
    {
      assert partials[..i + 1][..i] == partials[..i];
      if partials[i].id != "" && partials[i].name != "" {
        calls := calls + [partials[i]];
      }
    }
    assert partials[..|partials|] == partials;
  }

  // ----- what the reference means -----

  /** The text is that of the token events, joined in order. */
  lemma {:induction false} TextConcat(a: seq<Event>, b: seq<Event>)
    ensures TextOf(a + b) == TextOf(a) + TextOf(b)
  {
    hide TextOf;
    if b == [] {
      assert a + b == a;
      TextOfNone();
    } else {
      var n := |b| - 1;
      TextConcat(a, b[..n]);
      assert a + b == (a + b[..n]) + [b[n]] && b == b[..n] + [b[n]];
      TextStep(a + b[..n], b[n]);
      TextStep(b[..n], b[n]);
    }
  }

  lemma TextOfNone()
    ensures TextOf([]) == ""
  {
  }

  lemma TextOfOne(e: Event)
    ensures TextOf([e]) == if e.TokenDelta? then e.text else ""
  {
    TextStep([], e);
  }

  /** The arguments of a call are its chunks, joined in order. */
  lemma {:induction false} ArgumentsConcat(a: seq<Event>, b: seq<Event>, id: string)
    ensures ArgumentsOf(a + b, id) == ArgumentsOf(a, id) + ArgumentsOf(b, id)
  {
    hide ArgumentsOf;
    if b == [] {
      assert a + b == a;
      ArgumentsOfNone(id);
    } else {
      var n := |b| - 1;
      ArgumentsConcat(a, b[..n], id);
      assert a + b == (a + b[..n]) + [b[n]] && b == b[..n] + [b[n]];
      ArgumentsStep(a + b[..n], b[n], id);
      ArgumentsStep(b[..n], b[n], id);
    }
  }

  lemma ArgumentsOfNone(id: string)
    ensures ArgumentsOf([], id) == ""
  {
  }

  lemma ArgumentsStep(es: seq<Event>, e: Event, id: string)
    ensures ArgumentsOf(es + [e], id) == ArgumentsOf(es, id) + if Mentions(e, id) then e.chunk else ""
  {
    assert (es + [e])[..|es|] == es;
  }

  lemma ArgumentsOfOne(e: Event, id: string)
    ensures ArgumentsOf([e], id) == if Mentions(e, id) then e.chunk else ""
  {
    ArgumentsStep([], e, id);
  }

  /** Dropping unnamed calls keeps the order of the others. */
  lemma {:induction false} NamedConcat(a: seq<ToolCall>, b: seq<ToolCall>)
    ensures Named(a + b) == Named(a) + Named(b)
  {
    if b == [] {
      assert a + b == a;
    } else {
      assert (a + b)[..|a + b| - 1] == a + b[..|b| - 1];
      NamedConcat(a, b[..|b| - 1]);
    }
  }

  ghost predicate Announces(e: Event, id: string)
  {
    e.ToolCallDelta? && e.id == id && e.name.Some?
  }

  /** The name of a call is the last one announced for it. */
  lemma {:induction false} NameIsLast(es: seq<Event>, id: string, k: nat)
    requires k < |es| && Announces(es[k], id) && forall i :: k < i < |es| ==> !Announces(es[i], id)
    ensures NameOf(es, id) == es[k].name.value
  {
    if k < |es| - 1 {
      NameIsLast(es[..|es| - 1], id, k);
    }
  }

  ghost function Reported(e: Event, prompt: bool): nat
  {
    if e.UsageReport? then (if prompt then e.usage.prompt else e.usage.completion) else 0
  }

  /** Each usage count is the last positive one reported. */
  lemma {:induction false} UsageIsLast(es: seq<Event>, prompt: bool, k: nat)
    requires k < |es| && Reported(es[k], prompt) > 0 && forall i :: k < i < |es| ==> Reported(es[i], prompt) == 0
    ensures UsageOf(es).Some? && (if prompt then UsageOf(es).value.prompt else UsageOf(es).value.completion) == Reported(es[k], prompt)
  {
    assert es[k] in es;
    LastPositiveAt(es, prompt, k);
  }

  lemma {:induction false} LastPositiveAt(es: seq<Event>, prompt: bool, k: nat)
    requires k < |es| && Reported(es[k], prompt) > 0 && forall i :: k < i < |es| ==> Reported(es[i], prompt) == 0
    ensures LastPositive(es, prompt) == Reported(es[k], prompt)
  {
    if k < |es| - 1 {
      assert Reported(es[|es| - 1], prompt) == 0;
      LastPositiveAt(es[..|es| - 1], prompt, k);
    }
  }

  ghost predicate Mentions(e: Event, id: string)
  {
    e.ToolCallDelta? && e.id == id
  }

  /** Calls appear in the order of their first events: one listed earlier was mentioned before the
      other was mentioned at all. */
  lemma {:induction false} CallsInOrder(es: seq<Event>, i: nat, j: nat) returns (k: nat)
    requires i < j < |IdsOf(es)|
    ensures k < |es| && Mentions(es[k], IdsOf(es)[i]) && forall m :: 0 <= m <= k ==> !Mentions(es[m], IdsOf(es)[j])
  {
    var init, ids, last := es[..|es| - 1], IdsOf(es[..|es| - 1]), es[|es| - 1];
    assert es == init + [last];
    if j < |ids| {
      k := CallsInOrder(init, i, j);
    } else {
      k := MentionedAt(init, i);
      forall m | 0 <= m <= k ensures !Mentions(es[m], last.id) {
        assert init[m] in init;
      }
    }
  }

  lemma MentionedAt(es: seq<Event>, i: nat) returns (k: nat)
    requires i < |IdsOf(es)|
    ensures k < |es| && Mentions(es[k], IdsOf(es)[i])
  {
    assert IdsOf(es)[i] in IdsOf(es);
    var e :| e in es && e.ToolCallDelta? && e.id == IdsOf(es)[i];
    k :| 0 <= k < |es| && es[k] == e;
  }

  /** How a stream ends: exhausted, cancelled at an item, at a Done event with its reason, or at a
      failure with its message; everything before is handled, and nothing after. */
  lemma ResponseMeans(items: seq<Item>, cancelAt: nat)
    ensures var r, n := ResponseOf(items, cancelAt), EndOf(items, cancelAt, 0).n;
            && (r.Ok? ==> r.output.text == TextOf(Events(items, n)) && r.output.usage == UsageOf(Events(items, n)))
            && (r.Ok? ==> (r.output.cancelled <==> n < |items| && n == cancelAt))
            && (r.Ok? && n == |items| ==> r.output.stop == EndOfTurn)
            && (r.Ok? && r.output.cancelled ==> r.output.stop == Cancel)
            && (r.Ok? && n < |items| && n != cancelAt ==> items[n] == Event(Done(r.output.stop)))
            && (r.Err? <==> n < |items| && n != cancelAt && (items[n].Failed? || items[n].event.StreamError?))
            && (r.Err? ==> items[n] == Failed(r.message) || items[n] == Event(StreamError(r.message)))
  {
    hide TextOf, UsageOf, CallsOf, Named, Events;
    EndMeans(items, cancelAt, 0);
  }

  lemma {:induction false} EndMeans(items: seq<Item>, cancelAt: nat, i: nat)
    requires i <= |items|
    ensures match EndOf(items, cancelAt, i)
            case Exhausted(n) => n == |items|
            case Interrupted(n) => n < |items| && n == cancelAt
            case Finished(n, reason) => n < |items| && n != cancelAt && items[n] == Event(Done(reason))
            case Broken(n, m) => n < |items| && n != cancelAt && (items[n] == Failed(m) || items[n] == Event(StreamError(m)))
    decreases |items| - i
  {
    if i < |items| && i != cancelAt && items[i].Event? && !items[i].event.Done? && !items[i].event.StreamError? {
      EndMeans(items, cancelAt, i + 1);
    }
  }

  // ----- what callers rely on -----

  predicate DistinctIds(calls: seq<ToolCall>)
  {
    forall i, j :: 0 <= i < j < |calls| ==> calls[i].id != calls[j].id
  }

  lemma {:induction false} NamedKeepsDistinct(calls: seq<ToolCall>)
    requires DistinctIds(calls)
    ensures DistinctIds(Named(calls))
  {
    if calls != [] {
      var init, c := calls[..|calls| - 1], calls[|calls| - 1];
      NamedKeepsDistinct(init);
      forall d | d in Named(init) ensures d.id != c.id {
        var i :| 0 <= i < |init| && init[i] == d;
      }
    }
  }

  /** The calls of a response have distinct, non-empty ids, non-empty names, and the complete
      arguments streamed under their id. */
  lemma ResponseCalls(items: seq<Item>, cancelAt: nat)
    requires ResponseOf(items, cancelAt).Ok?
    ensures var calls := ResponseOf(items, cancelAt).output.toolCalls;
            var es := Events(items, EndOf(items, cancelAt, 0).n);
            && DistinctIds(calls)
            && (forall c :: c in calls ==> c.id != "" && c.name != "" && c.arguments == ArgumentsOf(es, c.id) && c.name == NameOf(es, c.id))
            && (forall id :: id != "" && id in IdsOf(es) && NameOf(es, id) != "" ==> exists c :: c in calls && c.id == id)
  {
    var es := Events(items, EndOf(items, cancelAt, 0).n);
    NamedKeepsDistinct(CallsOf(es));
    forall id | id != "" && id in IdsOf(es) && NameOf(es, id) != "" ensures exists c :: c in Named(CallsOf(es)) && c.id == id {
      var i :| 0 <= i < |IdsOf(es)| && IdsOf(es)[i] == id;
      assert CallsOf(es)[i] in CallsOf(es);
    }
  }
}
