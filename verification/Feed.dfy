/**
 The event feed (event/feed.go): one-to-many delivery over channels, with subscriptions that come and
 go while a value is being sent.

 `sendCases` is the list of select cases; its first entry is the channel on which removals arrive
 during a send.  The active cases of a send are a prefix of that list, kept in the same memory, so the
 prefix is represented by its length.  Which channel is ready, and which removal arrives when, is
 chosen by the environment.
 */
module Feed {
  import opened Shared

  type Chan = nat
  type Value = nat

  /** The feed's own removal channel, in the first select case. */
  const REMOVE_SUB: Chan := 0

  /** The index of the first subscription. */
  const FIRST: nat := 1

  // ---------------------------------------------------------------- caseList

  /** The index of the first case with the given channel, or -1. */
  method Find(cs: seq<Chan>, channel: Chan) returns (index: int)
    ensures index == -1 <==> channel !in cs
    ensures index != -1 ==> 0 <= index < |cs| && cs[index] == channel && channel !in cs[..index]
  {
    for i := 0 to |cs|
      invariant channel !in cs[..i]
    {
      if cs[i] == channel {
        return i;
      }
    }
    index := -1;
  }

  function Delete(cs: seq<Chan>, index: nat): (r: seq<Chan>)
    requires index < |cs|
  {
    cs[..index] + cs[index + 1..]
  }

  /** Move the case at `index` of the prefix of length `k` to its end, where it is no longer in the shorter prefix. */
  function Deactivate(cs: seq<Chan>, k: nat, index: nat): (r: seq<Chan>)
    requires index < k <= |cs|
    ensures |r| == |cs|
  {
    cs[index := cs[k - 1]][k - 1 := cs[index]]
  }

  lemma DeleteOne(cs: seq<Chan>, index: nat)
    requires index < |cs|
    ensures multiset(Delete(cs, index)) == multiset(cs) - multiset{cs[index]}
  {
    assert cs == cs[..index] + [cs[index]] + cs[index + 1..];
  }

  lemma DeactivateOne(cs: seq<Chan>, k: nat, index: nat)
    requires index < k <= |cs|
    ensures var r := Deactivate(cs, k, index);
            && |r| == |cs| && multiset(r) == multiset(cs)
            && multiset(r[..k - 1]) == multiset(cs[..k]) - multiset{cs[index]}
            && (index > 0 ==> r[0] == cs[0])
  {
    var r := Deactivate(cs, k, index);
    assert cs[..k] == cs[..k - 1] + [cs[k - 1]];
    if index == k - 1 {
      assert r == cs;
    } else {
      assert r[..k - 1] == cs[..k - 1][index := cs[k - 1]];
    }
  }

  lemma DeleteCase(cs: seq<Chan>, index: nat)
    requires FIRST <= index < |cs|
    ensures multiset(Delete(cs, index)[FIRST..]) == multiset(cs[FIRST..]) - multiset{cs[index]}
    ensures Delete(cs, index)[0] == cs[0] && forall c :: c in Delete(cs, index)[FIRST..] ==> c in cs[FIRST..]
  {
    var rest, tail := Delete(cs, index)[FIRST..], cs[FIRST..];
    assert rest == Delete(tail, index - FIRST);
    DeleteOne(tail, index - FIRST);
    forall c | c in rest ensures c in tail { assert c in multiset(rest); }
  }

  // ---------------------------------------------------------------- Feed

  class Feed {
    var sendCases: seq<Chan>
    var inbox: seq<Chan>

    ghost predicate Valid()
      reads this
    {
      && |sendCases| >= FIRST && sendCases[0] == REMOVE_SUB
      && REMOVE_SUB !in sendCases[FIRST..] && REMOVE_SUB !in inbox
    }

    /** All current subscriptions. */
    ghost function Subscribed(): multiset<Chan>
      requires |sendCases| >= FIRST
      reads this
    {
      multiset(sendCases[FIRST..]) + multiset(inbox)
    }

    constructor ()
      ensures Valid() && Subscribed() == multiset{}
    {
      sendCases := [REMOVE_SUB];
      inbox := [];
    }

    /** A new subscription waits in the inbox for the next send. */
    method Subscribe(channel: Chan)
      requires Valid() && channel != REMOVE_SUB
      modifies this`inbox
      ensures Valid() && Subscribed() == old(Subscribed()) + multiset{channel}
    {
      Join(channel);
    }

    method Join(channel: Chan)
      requires REMOVE_SUB !in inbox && channel != REMOVE_SUB
      modifies this`inbox
      ensures REMOVE_SUB !in inbox && multiset(inbox) == multiset(old(inbox)) + multiset{channel}
    {
      inbox := inbox + [channel];
    }

    /** Unsubscribe while no send is in progress. */
    method Remove(channel: Chan)
      requires Valid() && channel in Subscribed() && channel != REMOVE_SUB
      modifies this
      ensures Valid() && Subscribed() == old(Subscribed()) - multiset{channel}
      ensures if channel in old(inbox) then sendCases == old(sendCases) else inbox == old(inbox)
    {
      var found := Cancel(channel);
      if found {
        return;
      }
      assert channel in multiset(sendCases[FIRST..]);
      RemoveCase(channel);
    }

    /** Take a subscription that has not been part of a send yet out of the inbox. */
    method Cancel(channel: Chan) returns (found: bool)
      requires REMOVE_SUB !in inbox
      modifies this`inbox
      ensures REMOVE_SUB !in inbox && found == (channel in old(inbox))
      ensures multiset(inbox) == multiset(old(inbox)) - multiset{channel} && (!found ==> inbox == old(inbox))
    {
      var index := Find(inbox, channel);
      found := index != -1;
      if found {
        DeleteOne(inbox, index);
        forall c | c in Delete(inbox, index) ensures c in inbox { assert c in multiset(Delete(inbox, index)); }
        inbox := Delete(inbox, index);
      }
    }

    method RemoveCase(channel: Chan)
      requires Valid() && channel in sendCases[FIRST..] && channel != REMOVE_SUB
      modifies this`sendCases
      ensures Valid() && multiset(sendCases[FIRST..]) == multiset(old(sendCases)[FIRST..]) - multiset{channel}
    {
      var index := Find(sendCases, channel);
      DeleteCase(sendCases, index);
      sendCases := Delete(sendCases, index);
    }

    /** Other goroutines subscribe, and cancel such fresh subscriptions, during a send. */
    method Newcomers(value: Value, net: Channels, k: nat, ghost before: seq<Event>, ghost events0: seq<Event>,
                     ghost start: multiset<Chan>)
      returns (ghost events: seq<Event>)
      requires REMOVE_SUB !in inbox && multiset(inbox) == Newly(events0) && net.events == before + events0
      requires Sending(sendCases, k, events0, start, value) == true
      modifies this`inbox, net`events
      ensures REMOVE_SUB !in inbox && multiset(inbox) == Newly(events) && net.events == before + events
      ensures Sending(sendCases, k, events, start, value) == true && Sends(events) == Sends(events0)
    {
      events := events0;
      var channels: seq<Chan> := *;
      for i := 0 to |channels|
        invariant REMOVE_SUB !in inbox && multiset(inbox) == Newly(events) && net.events == before + events
        invariant Sending(sendCases, k, events, start, value) == true && Sends(events) == Sends(events0)
      {
        if channels[i] != REMOVE_SUB {
          var e := net.Arrive(channels[i], inbox);
          EventsMore(events, e);
          Arrives(sendCases, k, events, e, start, value);
          if e.Joined? {
            Join(e.channel);
          } else {
            var found := Cancel(e.channel);
          }
          events := events + [e];
        }
      }
    }

    /** Send: deliver to every subscription, in whatever order the channels become ready, while removals arrive. */
    method Send(value: Value, net: Channels) returns (nsent: nat, ghost events: seq<Event>)
      requires Valid()
      modifies this, net
      ensures Valid() && net.events == old(net.events) + events
      ensures Account(old(Subscribed()), events, value) == true
      ensures TallyOf(old(Subscribed()), events).waiting == multiset{}
      ensures forall ch :: SentOn(events, ch) + SkippedOn(old(Subscribed()), events, ch) == old(Subscribed())[ch]
      ensures nsent == Sends(events)
      ensures Subscribed() == TallyOf(old(Subscribed()), events).served + multiset(inbox)
      ensures forall ch :: multiset(inbox)[ch] + LeftOn(events, ch) == JoinedOn(events, ch)
      ensures forall ch :: multiset(sendCases[FIRST..])[ch] + RemovedOn(events, ch) == old(Subscribed())[ch]
    {
      ghost var start := Subscribed();
      Starts(sendCases, inbox, value);
      sendCases := sendCases + inbox;
      inbox := [];
      var k: nat := |sendCases|;
      nsent, events := 0, [];
      while true
        invariant REMOVE_SUB !in inbox && nsent == Sends(events) && net.events == old(net.events) + events
        invariant Sending(sendCases, k, events, start, value) == true && multiset(inbox) == Newly(events)
        decreases k + |sendCases|
      {
        events := Newcomers(value, net, k, old(net.events), events, start);
        k, nsent, events := TrySends(value, net, k, nsent, old(net.events), events, start);
        SendingParts(sendCases, k, events, start, value);
        if k == FIRST {
          break;
        }
        events := Newcomers(value, net, k, old(net.events), events, start);
        k, nsent, events := SelectOne(value, net, k, nsent, old(net.events), events, start);
      }
      SendingDone(sendCases, events, start, value);
      SendCounts(sendCases, inbox, events, start, value);
    }

    /** Wait until a channel takes the value or a removal arrives. */
    method SelectOne(value: Value, net: Channels, k0: nat, nsent0: nat, ghost before: seq<Event>,
                     ghost events0: seq<Event>, ghost start: multiset<Chan>)
      returns (k: nat, nsent: nat, ghost events: seq<Event>)
      requires nsent0 == Sends(events0) && net.events == before + events0 && FIRST < k0 <= |sendCases|
      requires Sending(sendCases, k0, events0, start, value) == true
      requires forall i :: FIRST <= i < k0 ==> sendCases[i] in net.refused
      modifies this`sendCases, net
      ensures nsent == Sends(events) && Sending(sendCases, k, events, start, value) == true
      ensures Newly(events) == Newly(events0) && net.events == before + events
      ensures k + |sendCases| < k0 + |old(sendCases)|
    {
      k, nsent, events := k0, nsent0, events0;
      assert sendCases[FIRST..][0] in sendCases[FIRST..];
      var chosen, channel := net.Select(sendCases[..k], value, sendCases[FIRST..]);
      if chosen == 0 {
        EventsMore(events, Removed(channel));
        k := Received(channel, k, events, start, value);
        events := events + [Removed(channel)];
      } else {
        ghost var e := Sent(sendCases[chosen], value);
        EventsMore(events, e);
        k := Deliver(chosen, k, events, e, start, value);
        events := events + [e];
        nsent := nsent + 1;
      }
    }

    /** The fast path: try every active channel once without blocking. */
    method TrySends(value: Value, net: Channels, k0: nat, nsent0: nat, ghost before: seq<Event>,
                    ghost events0: seq<Event>, ghost start: multiset<Chan>)
      returns (k: nat, nsent: nat, ghost events: seq<Event>)
      requires nsent0 == Sends(events0) && net.events == before + events0
      requires Sending(sendCases, k0, events0, start, value) == true
      modifies this`sendCases, net
      ensures nsent == Sends(events) && Sending(sendCases, k, events, start, value) == true
      ensures Newly(events) == Newly(events0)
      ensures k <= k0 && |sendCases| == |old(sendCases)| && net.events == before + events
      ensures k <= |sendCases| && forall i :: FIRST <= i < k ==> sendCases[i] in net.refused
    {
      k, nsent, events := k0, nsent0, events0;
      SendingParts(sendCases, k, events, start, value);
      var i := FIRST;
      while i < k
        invariant FIRST <= i && k <= k0 && |sendCases| == |old(sendCases)| && net.events == before + events
        invariant nsent == Sends(events) && Sending(sendCases, k, events, start, value) == true
        invariant Newly(events) == Newly(events0)
        invariant i <= |sendCases| && k <= |sendCases| && forall j :: FIRST <= j < i ==> sendCases[j] in net.refused
        decreases k - i
      {
        SendingParts(sendCases, k, events, start, value);
        var ok := net.TrySend(sendCases[i], value);
        if ok {
          nsent := nsent + 1;
          ghost var e := Sent(sendCases[i], value);
          EventsMore(events, e);
          k := Deliver(i, k, events, e, start, value);
          events := events + [e];
        } else {
          i := i + 1;
        }
      }
    }

    /** The value has been sent on the channel of active case `i`. */
    method Deliver(i: nat, k0: nat, ghost events: seq<Event>, ghost e: Event, ghost start: multiset<Chan>,
                   ghost value: Value)
      returns (k: nat)
      requires FIRST <= i < k0 <= |sendCases| && Sending(sendCases, k0, events, start, value) == true
      requires e == Sent(sendCases[i], value)
      modifies this`sendCases
      ensures Sending(sendCases, k, events + [e], start, value) == true
      ensures k == k0 - 1 && |sendCases| == |old(sendCases)|
      ensures forall j :: 0 <= j < i ==> sendCases[j] == old(sendCases)[j]
    {
      k := k0 - 1;
      var cases := Delivered(sendCases, k0, i, events, e, start, value);
      sendCases := cases;
    }

    method Delivered(cases0: seq<Chan>, k0: nat, i: nat, ghost events: seq<Event>, ghost e: Event,
                     ghost start: multiset<Chan>, ghost value: Value)
      returns (cases: seq<Chan>)
      requires FIRST <= i < k0 <= |cases0| && Sending(cases0, k0, events, start, value) == true
      requires e == Sent(cases0[i], value)
      ensures Sending(cases, k0 - 1, events + [e], start, value) == true && |cases| == |cases0|
      ensures forall j :: 0 <= j < i ==> cases[j] == cases0[j]
    {
      Delivers(cases0, k0, i, events, e, start, value);
      cases := Deactivate(cases0, k0, i);
    }

    /** A removal has arrived during a send. */
    method Received(channel: Chan, k0: nat, ghost events: seq<Event>, ghost start: multiset<Chan>, ghost value: Value)
      returns (k: nat)
      requires |sendCases| >= FIRST && channel in sendCases[FIRST..]
      requires Sending(sendCases, k0, events, start, value) == true
      modifies this`sendCases
      ensures Sending(sendCases, k, events + [Removed(channel)], start, value) == true
      ensures k <= k0 && |sendCases| < |old(sendCases)|
    {
      SendingParts(sendCases, k0, events, start, value);
      k := k0;
      var index := Find(sendCases, channel);
      Removes(sendCases, k, index, events, start, value);
      sendCases := Delete(sendCases, index);
      if index < k {
        k := k - 1;
      }
    }
  }

  // ---------------------------------------------------------------- what happens on the channels

  /** A value is sent, a removal is received, or a fresh subscription joins or is cancelled. */
  datatype Event =
    | Sent(channel: Chan, value: Value)
    | Removed(channel: Chan)
    | Joined(channel: Chan)
    | Left(channel: Chan)

  /** The channels, and what has happened on them.  Which one is ready is up to the receivers. */
  class Channels {
    var events: seq<Event>

    /** The channels that have refused a try since the last wait. */
    ghost var refused: set<Chan>

    method TrySend(channel: Chan, value: Value) returns (ok: bool)
      modifies this
      ensures events == old(events) + if ok then [Sent(channel, value)] else []
      ensures refused == old(refused) + if ok then {} else {channel}
    {
      ok := *;
      if ok {
        events := events + [Sent(channel, value)];
      } else {
        refused := refused + {channel};
      }
    }

    /** A goroutine subscribes a channel, or cancels a subscription of it that is still in the inbox. */
    method Arrive(channel: Chan, inbox: seq<Chan>) returns (e: Event)
      modifies this`events
      ensures events == old(events) + [e] && (e == Joined(channel) || (e == Left(channel) && channel in inbox))
    {
      e := Joined(channel);
      var leaves: bool := *;
      if leaves && channel in inbox {
        e := Left(channel);
      }
      events := events + [e];
    }

    /**
     Wait until one of the cases can proceed: a removal arrives in the first, or one of the others takes the value.  All
     others have just refused a try.
     */
    method Select(cases: seq<Chan>, value: Value, removable: seq<Chan>) returns (chosen: nat, recv: Chan)
      requires cases != [] && removable != [] && forall i :: FIRST <= i < |cases| ==> cases[i] in refused
      modifies this
      ensures chosen < |cases| && refused == {}
      ensures if chosen == 0 then recv in removable && events == old(events) + [Removed(recv)]
              else events == old(events) + [Sent(cases[chosen], value)]
    {
      refused := {};
      chosen :| chosen < |cases|;
      recv := removable[0];
      if chosen == 0 {
        assert removable[0] in removable;
        recv :| recv in removable;
        events := events + [Removed(recv)];
      } else {
        events := events + [Sent(cases[chosen], value)];
      }
    }
  }

  /** Who still waits for the value, and who has got it and is still subscribed. */
  datatype Tally = Tally(waiting: multiset<Chan>, served: multiset<Chan>)

  /** A removal takes a subscription that waits, if there is one for the channel, else one that was served. */
  ghost function Next(t: Tally, e: Event): Tally {
    match e
    case Sent(ch, _) => Tally(t.waiting - multiset{ch}, t.served + multiset{ch})
    case Removed(ch) =>
      if ch in t.waiting then t.(waiting := t.waiting - multiset{ch}) else t.(served := t.served - multiset{ch})
    case _ => t
  }

  ghost function TallyOf(start: multiset<Chan>, events: seq<Event>): Tally {
    if events == [] then Tally(start, multiset{})
    else Next(TallyOf(start, events[..|events| - 1]), events[|events| - 1])
  }

  /** The value goes only to subscriptions that wait for it, and only subscriptions are removed. */
  ghost predicate Proper(t: Tally, e: Event, value: Value) {
    match e
    case Sent(ch, v) => ch in t.waiting && v == value
    case Removed(ch) => ch in t.waiting || ch in t.served
    case _ => true
  }

  /** The subscriptions that have joined during a send and have not been cancelled. */
  ghost function Newly(events: seq<Event>): multiset<Chan> {
    if events == [] then multiset{}
    else
      var joined, e := Newly(events[..|events| - 1]), events[|events| - 1];
      if e.Joined? then joined + multiset{e.channel} else if e.Left? then joined - multiset{e.channel} else joined
  }

  /** How many subscriptions of a channel joined. */
  ghost function JoinedOn(events: seq<Event>, ch: Chan): nat {
    if events == [] then 0
    else JoinedOn(events[..|events| - 1], ch) + (if events[|events| - 1] == Joined(ch) then 1 else 0)
  }

  /** How many of those were cancelled. */
  ghost function LeftOn(events: seq<Event>, ch: Chan): nat {
    if events == [] then 0
    else LeftOn(events[..|events| - 1], ch) + (if events[|events| - 1] == Left(ch) then 1 else 0)
  }

  ghost predicate Account(start: multiset<Chan>, events: seq<Event>, value: Value) {
    events == [] ||
    (Account(start, events[..|events| - 1], value)
     && Proper(TallyOf(start, events[..|events| - 1]), events[|events| - 1], value)
     && (events[|events| - 1].Left? ==> events[|events| - 1].channel in Newly(events[..|events| - 1])))
  }

  /** How often the value was sent, on any channel. */
  ghost function Sends(events: seq<Event>): nat {
    if events == [] then 0
    else Sends(events[..|events| - 1]) + (if events[|events| - 1].Sent? then 1 else 0)
  }

  lemma EventsMore(events: seq<Event>, e: Event)
    ensures Sends(events + [e]) == Sends(events) + (if e.Sent? then 1 else 0)
    ensures Newly(events + [e])
         == if e.Joined? then Newly(events) + multiset{e.channel}
            else if e.Left? then Newly(events) - multiset{e.channel} else Newly(events)
  {
    assert (events + [e])[..|events|] == events;
  }

  /** How often it was sent on a channel. */
  ghost function SentOn(events: seq<Event>, ch: Chan): nat {
    if events == [] then 0
    else
      var e := events[|events| - 1];
      SentOn(events[..|events| - 1], ch) + (if e.Sent? && e.channel == ch then 1 else 0)
  }

  /** How many removals of a channel arrived. */
  ghost function RemovedOn(events: seq<Event>, ch: Chan): nat {
    if events == [] then 0
    else
      var e := events[|events| - 1];
      RemovedOn(events[..|events| - 1], ch) + (if e == Removed(ch) then 1 else 0)
  }

  /** How many of them arrived while a subscription of the channel was still waiting. */
  ghost function SkippedOn(start: multiset<Chan>, events: seq<Event>, ch: Chan): nat {
    if events == [] then 0
    else
      var front, e := events[..|events| - 1], events[|events| - 1];
      SkippedOn(start, front, ch) + (if e == Removed(ch) && ch in TallyOf(start, front).waiting then 1 else 0)
  }

  /** Every subscription of the start waits, has been sent to, or was removed while it waited. */
  ghost predicate Accounted(start: multiset<Chan>, events: seq<Event>, ch: Chan) {
    var t := TallyOf(start, events);
    && SentOn(events, ch) + SkippedOn(start, events, ch) + t.waiting[ch] == start[ch]
    && SkippedOn(start, events, ch) <= RemovedOn(events, ch)
    && SentOn(events, ch) + SkippedOn(start, events, ch) == t.served[ch] + RemovedOn(events, ch)
  }

  lemma {:induction false} AllAccounted(start: multiset<Chan>, events: seq<Event>, value: Value, ch: Chan)
    requires Account(start, events, value)
    ensures Accounted(start, events, ch) == true
    decreases |events|
  {
    if events != [] {
      var front, e := events[..|events| - 1], events[|events| - 1];
      AllAccounted(start, front, value, ch);
      OneMore(start, front, e, value, ch);
      assert front + [e] == events;
    }
  }

  lemma OneMore(start: multiset<Chan>, front: seq<Event>, e: Event, value: Value, ch: Chan)
    requires Accounted(start, front, ch) && Proper(TallyOf(start, front), e, value)
    ensures Accounted(start, front + [e], ch) == true
  {
    var t := TallyOf(start, front);
    OneAccounted(t, e, value, ch);
    CountsMore(start, front, e, ch);
    assert e.Sent? && e.channel == ch ==> e == Sent(ch, value);
    assert ch in t.waiting <==> t.waiting[ch] > 0;
  }

  lemma CountsMore(start: multiset<Chan>, front: seq<Event>, e: Event, ch: Chan)
    ensures var events := front + [e];
            && TallyOf(start, events) == Next(TallyOf(start, front), e)
            && SentOn(events, ch) == SentOn(front, ch) + (if e.Sent? && e.channel == ch then 1 else 0)
            && RemovedOn(events, ch) == RemovedOn(front, ch) + (if e == Removed(ch) then 1 else 0)
            && SkippedOn(start, events, ch)
               == SkippedOn(start, front, ch)
                  + (if e == Removed(ch) && ch in TallyOf(start, front).waiting then 1 else 0)
  {
    assert (front + [e])[..|front|] == front;
  }

  lemma OneAccounted(t: Tally, e: Event, value: Value, ch: Chan)
    requires Proper(t, e, value)
    ensures var n := Next(t, e);
            if e == Sent(ch, value) then n.waiting[ch] == t.waiting[ch] - 1 && n.served[ch] == t.served[ch] + 1
            else if e != Removed(ch) then n.waiting[ch] == t.waiting[ch] && n.served[ch] == t.served[ch]
            else if ch in t.waiting then n.waiting[ch] == t.waiting[ch] - 1 && n.served[ch] == t.served[ch]
            else n.waiting[ch] == t.waiting[ch] && n.served[ch] == t.served[ch] - 1
  {
  }

  /**
   After a whole send: on every channel the value was sent as often as there were subscriptions, less the removals
   that came before; without a removal, exactly as often.
   */
  lemma SentOrRemoved(start: multiset<Chan>, events: seq<Event>, value: Value, ch: Chan)
    requires Account(start, events, value) && TallyOf(start, events).waiting == multiset{}
    ensures SentOn(events, ch) + SkippedOn(start, events, ch) == start[ch]
    ensures SkippedOn(start, events, ch) <= RemovedOn(events, ch)
    ensures RemovedOn(events, ch) == 0 ==> SentOn(events, ch) == start[ch]
    ensures TallyOf(start, events).served[ch] + RemovedOn(events, ch) == start[ch]
  {
    AllAccounted(start, events, value, ch);
  }

  /** Of those that joined, exactly the cancelled ones are gone. */
  lemma {:induction false} NewlyCounts(start: multiset<Chan>, events: seq<Event>, value: Value, ch: Chan)
    requires Account(start, events, value)
    ensures Newly(events)[ch] + LeftOn(events, ch) == JoinedOn(events, ch)
    decreases |events|
  {
    if events != [] {
      NewlyCounts(start, events[..|events| - 1], value, ch);
    }
  }

  /**
   A channel with one subscription: the value is sent on it once and no removal comes before, or never and one comes.
   */
  lemma OnceOrRemoved(start: multiset<Chan>, events: seq<Event>, value: Value, ch: Chan)
    requires Account(start, events, value) && TallyOf(start, events).waiting == multiset{} && start[ch] == 1
    ensures SentOn(events, ch) == 1 || (SentOn(events, ch) == 0 && RemovedOn(events, ch) >= 1)
    ensures forall i :: 0 <= i < |events| && events[i].Sent? && events[i].channel == ch ==>
                          events[i].value == value && RemovedOn(events[..i], ch) == 0
  {
    AllAccounted(start, events, value, ch);
    forall i | 0 <= i < |events| && events[i].Sent? && events[i].channel == ch
      ensures events[i].value == value && RemovedOn(events[..i], ch) == 0
    {
      SentWaiting(start, events, value, i);
      AllAccounted(start, events[..i], value, ch);
    }
  }

  /** Whoever is sent the value was waiting for it. */
  lemma SentWaiting(start: multiset<Chan>, events: seq<Event>, value: Value, i: nat)
    requires Account(start, events, value) && i < |events| && events[i].Sent?
    ensures Account(start, events[..i], value)
    ensures events[i].value == value && TallyOf(start, events[..i]).waiting[events[i].channel] > 0
  {
    AccountFront(start, events, value, i + 1);
    assert events[..i + 1][..i] == events[..i];
  }

  lemma {:induction false} AccountFront(start: multiset<Chan>, events: seq<Event>, value: Value, n: nat)
    requires Account(start, events, value) && n <= |events|
    ensures Account(start, events[..n], value)
    decreases |events|
  {
    if n < |events| {
      assert events[..|events| - 1][..n] == events[..n];
      AccountFront(start, events[..|events| - 1], value, n);
    } else {
      assert events[..n] == events;
    }
  }

  // ---------------------------------------------------------------- a send in progress

  /**
   The state of a send that started with the subscriptions `start`: the first `k` cases are those still
   waiting, and behind them are those that were served and not removed since.
   */
  ghost predicate Sending(cases: seq<Chan>, k: nat, events: seq<Event>, start: multiset<Chan>, value: Value)
  {
    forall key: int {:trigger Opened(key)} :: Sealed(key) ==> Served(cases, k, events, start, value)
  }

  ghost predicate Served(cases: seq<Chan>, k: nat, events: seq<Event>, start: multiset<Chan>, value: Value)
  {
    && FIRST <= k <= |cases| && cases[0] == REMOVE_SUB && REMOVE_SUB !in cases[FIRST..]
    && Account(start, events, value)
    && TallyOf(start, events) == Tally(multiset(cases[FIRST..k]), multiset(cases[k..]))
  }

  lemma SendingParts(cases: seq<Chan>, k: nat, events: seq<Event>, start: multiset<Chan>, value: Value)
    requires Sending(cases, k, events, start, value)
    ensures FIRST <= k <= |cases| && cases[0] == REMOVE_SUB && REMOVE_SUB !in cases[FIRST..]
  {
    assert Opened(0);
  }

  lemma SendingDone(cases: seq<Chan>, events: seq<Event>, start: multiset<Chan>, value: Value)
    requires Sending(cases, FIRST, events, start, value)
    ensures |cases| >= FIRST && cases[0] == REMOVE_SUB && REMOVE_SUB !in cases[FIRST..]
    ensures Account(start, events, value) == true
    ensures TallyOf(start, events) == Tally(multiset{}, multiset(cases[FIRST..]))
  {
    assert Opened(0) && cases[FIRST..FIRST] == [];
  }

  lemma SendCounts(cases: seq<Chan>, inbox: seq<Chan>, events: seq<Event>, start: multiset<Chan>, value: Value)
    requires |cases| >= FIRST && Account(start, events, value) && multiset(inbox) == Newly(events)
    requires TallyOf(start, events) == Tally(multiset{}, multiset(cases[FIRST..]))
    ensures forall ch :: SentOn(events, ch) + SkippedOn(start, events, ch) == start[ch]
    ensures forall ch :: multiset(inbox)[ch] + LeftOn(events, ch) == JoinedOn(events, ch)
    ensures forall ch :: multiset(cases[FIRST..])[ch] + RemovedOn(events, ch) == start[ch]
  {
    forall ch
      ensures SentOn(events, ch) + SkippedOn(start, events, ch) == start[ch]
      ensures multiset(inbox)[ch] + LeftOn(events, ch) == JoinedOn(events, ch)
      ensures multiset(cases[FIRST..])[ch] + RemovedOn(events, ch) == start[ch]
    {
      SentOrRemoved(start, events, value, ch);
      NewlyCounts(start, events, value, ch);
    }
  }

  lemma Starts(cases: seq<Chan>, inbox: seq<Chan>, value: Value)
    requires |cases| >= FIRST && cases[0] == REMOVE_SUB && REMOVE_SUB !in cases[FIRST..] && REMOVE_SUB !in inbox
    ensures Sending(cases + inbox, |cases + inbox|, [], multiset(cases[FIRST..]) + multiset(inbox), value) == true
  {
    var all := cases + inbox;
    assert Opened(0);
    assert all[FIRST..] == cases[FIRST..] + inbox && all[FIRST..|all|] == all[FIRST..] && all[|all|..] == [];
  }

  lemma DeliverParts(cases: seq<Chan>, k: nat, i: nat)
    requires FIRST <= i < k <= |cases|
    ensures var r := Deactivate(cases, k, i);
            && multiset(r[FIRST..]) == multiset(cases[FIRST..])
            && multiset(r[FIRST..k - 1]) == multiset(cases[FIRST..k]) - multiset{cases[i]}
            && multiset(r[k - 1..]) == multiset(cases[k..]) + multiset{cases[i]}
  {
    DeliverFront(cases, k, i);
    DeliverBack(cases, k, i);
  }

  lemma DeliverFront(cases: seq<Chan>, k: nat, i: nat)
    requires FIRST <= i < k <= |cases|
    ensures var r := Deactivate(cases, k, i);
            && multiset(r[FIRST..]) == multiset(cases[FIRST..])
            && multiset(r[FIRST..k - 1]) == multiset(cases[FIRST..k]) - multiset{cases[i]}
  {
    DeactivateOne(cases[FIRST..], k - 1, i - 1);
    DeactivateTail(cases, k, i);
  }

  lemma DeactivateTail(cases: seq<Chan>, k: nat, i: nat)
    requires FIRST <= i < k <= |cases|
    ensures var r, d := Deactivate(cases, k, i), Deactivate(cases[FIRST..], k - 1, i - 1);
            r[FIRST..] == d && r[FIRST..k - 1] == d[..k - 2] && cases[FIRST..][..k - 1] == cases[FIRST..k]
  {
  }

  lemma DeliverBack(cases: seq<Chan>, k: nat, i: nat)
    requires FIRST <= i < k <= |cases|
    ensures multiset(Deactivate(cases, k, i)[k - 1..]) == multiset(cases[k..]) + multiset{cases[i]}
  {
    assert Deactivate(cases, k, i)[k - 1..] == [cases[i]] + cases[k..];
  }

  lemma TallyMore(start: multiset<Chan>, events: seq<Event>, value: Value, e: Event)
    requires Account(start, events, value) && Proper(TallyOf(start, events), e, value)
    requires e.Left? ==> e.channel in Newly(events)
    ensures Account(start, events + [e], value) && TallyOf(start, events + [e]) == Next(TallyOf(start, events), e)
  {
    assert (events + [e])[..|events|] == events;
  }

  /** Delivery to one of the active cases. */
  lemma Delivers(cases: seq<Chan>, k: nat, i: nat, events: seq<Event>, e: Event, start: multiset<Chan>, value: Value)
    requires Sending(cases, k, events, start, value) == true && FIRST <= i < k <= |cases|
    requires e == Sent(cases[i], value)
    ensures Sending(Deactivate(cases, k, i), k - 1, events + [e], start, value) == true
  {
    assert Opened(0);
    ServesOne(cases, k, i, events, e, start, value);
  }

  lemma ServesOne(cases: seq<Chan>, k: nat, i: nat, events: seq<Event>, e: Event, start: multiset<Chan>, value: Value)
    requires Served(cases, k, events, start, value) && FIRST <= i < k && e == Sent(cases[i], value)
    ensures Served(Deactivate(cases, k, i), k - 1, events + [e], start, value) == true
  {
    DeliverParts(cases, k, i);
    DeliverOurs(cases, k, i);
    assert cases[i] == cases[FIRST..k][i - 1];
    TallyMore(start, events, value, e);
  }

  lemma DeliverOurs(cases: seq<Chan>, k: nat, i: nat)
    requires FIRST <= i < k <= |cases| && cases[0] == REMOVE_SUB && REMOVE_SUB !in cases[FIRST..]
    ensures Deactivate(cases, k, i)[0] == REMOVE_SUB && REMOVE_SUB !in Deactivate(cases, k, i)[FIRST..]
  {
    DeliverParts(cases, k, i);
    assert REMOVE_SUB !in multiset(cases[FIRST..]);
  }

  /** Newcomers are no part of the send. */
  lemma Arrives(cases: seq<Chan>, k: nat, events: seq<Event>, e: Event, start: multiset<Chan>, value: Value)
    requires Sending(cases, k, events, start, value) == true
    requires e.Joined? || (e.Left? && e.channel in Newly(events))
    ensures Sending(cases, k, events + [e], start, value) == true
  {
    assert Opened(0);
    TallyMore(start, events, value, e);
  }

  lemma RemoveParts(cases: seq<Chan>, k: nat, i: nat)
    requires FIRST <= k <= |cases| && FIRST <= i < |cases|
    ensures var r := Delete(cases, i);
            && multiset(r[FIRST..]) == multiset(cases[FIRST..]) - multiset{cases[i]}
            && (i < k ==>
                  multiset(r[FIRST..k - 1]) == multiset(cases[FIRST..k]) - multiset{cases[i]}
                  && r[k - 1..] == cases[k..])
            && (i >= k ==>
                  multiset(r[k..]) == multiset(cases[k..]) - multiset{cases[i]} && r[FIRST..k] == cases[FIRST..k])
  {
    var r := Delete(cases, i);
    assert r[FIRST..] == Delete(cases[FIRST..], i - 1);
    DeleteOne(cases[FIRST..], i - 1);
    if i < k {
      RemoveActive(cases, k, i);
    } else {
      RemoveInactive(cases, k, i);
    }
  }

  lemma RemoveActive(cases: seq<Chan>, k: nat, i: nat)
    requires FIRST <= i < k <= |cases|
    ensures var r := Delete(cases, i);
            multiset(r[FIRST..k - 1]) == multiset(cases[FIRST..k]) - multiset{cases[i]} && r[k - 1..] == cases[k..]
  {
    DeleteOne(cases[FIRST..k], i - 1);
    assert Delete(cases, i)[FIRST..k - 1] == Delete(cases[FIRST..k], i - 1);
  }

  lemma RemoveInactive(cases: seq<Chan>, k: nat, i: nat)
    requires FIRST <= k <= i < |cases|
    ensures var r := Delete(cases, i);
            multiset(r[k..]) == multiset(cases[k..]) - multiset{cases[i]} && r[FIRST..k] == cases[FIRST..k]
  {
    DeleteOne(cases[k..], i - k);
    assert Delete(cases, i)[k..] == Delete(cases[k..], i - k);
  }

  /** Removal of the first case of a channel: a waiting one, if there is any. */
  lemma Removes(cases: seq<Chan>, k: nat, i: nat, events: seq<Event>, start: multiset<Chan>, value: Value)
    requires Sending(cases, k, events, start, value) == true && FIRST <= i < |cases| && cases[i] !in cases[..i]
    ensures Sending(Delete(cases, i), if i < k then k - 1 else k, events + [Removed(cases[i])], start, value) == true
  {
    assert Opened(0);
    RemovesOne(cases, k, i, events, start, value);
  }

  lemma RemovesOne(cases: seq<Chan>, k: nat, i: nat, events: seq<Event>, start: multiset<Chan>, value: Value)
    requires Served(cases, k, events, start, value) && FIRST <= i < |cases| && cases[i] !in cases[..i]
    ensures Served(Delete(cases, i), if i < k then k - 1 else k, events + [Removed(cases[i])], start, value) == true
  {
    RemoveParts(cases, k, i);
    FirstActive(cases, k, i);
    StaysOurs(cases, i);
    TallyMore(start, events, value, Removed(cases[i]));
    RemovedTally(TallyOf(start, events), cases[i]);
  }

  lemma StaysOurs(cases: seq<Chan>, i: nat)
    requires FIRST <= i < |cases| && cases[0] == REMOVE_SUB && REMOVE_SUB !in cases[FIRST..]
    ensures |Delete(cases, i)| == |cases| - 1 && Delete(cases, i)[0] == REMOVE_SUB
    ensures REMOVE_SUB !in Delete(cases, i)[FIRST..]
  {
    forall c | c in Delete(cases, i)[FIRST..]
      ensures c in cases[FIRST..]
    {
      var j :| 0 <= j < |Delete(cases, i)[FIRST..]| && Delete(cases, i)[FIRST..][j] == c;
      assert c == if j + 1 < i then cases[FIRST..][j] else cases[FIRST..][j + 1];
    }
  }

  lemma RemovedTally(t: Tally, ch: Chan)
    ensures ch in t.waiting ==> Next(t, Removed(ch)) == Tally(t.waiting - multiset{ch}, t.served)
    ensures ch !in t.waiting ==> Next(t, Removed(ch)) == Tally(t.waiting, t.served - multiset{ch})
  {
  }

  lemma FirstActive(cases: seq<Chan>, k: nat, i: nat)
    requires FIRST <= k <= |cases| && FIRST <= i < |cases| && cases[i] !in cases[..i]
    ensures i < k <==> cases[i] in multiset(cases[FIRST..k])
    ensures i >= k ==> cases[i] in multiset(cases[k..])
  {
    if i < k {
      assert cases[i] == cases[FIRST..k][i - 1];
    } else {
      assert cases[i] == cases[k..][i - k];
      assert cases[..i][FIRST..k] == cases[FIRST..k];
    }
  }
}
