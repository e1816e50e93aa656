// A subscriber's bounded channel: the monitor offers each update with a send that gives
// up when the buffer is full, and the subscriber receives in its own time.
module Subscribers {

  const CAPACITY := 16

  // `buffer` is the channel; the rest records the past: what the subscriber has received,
  // what it was offered since it subscribed, and how many offers found the buffer full.
  datatype Channel<T> = Channel(buffer: seq<T>, received: seq<T>, offered: seq<T>, dropped: nat)
  {
    function Delivered(): seq<T> { received + buffer }
  }

  datatype Event<T> = Offer(value: T) | Receive

  function Empty<T>(): Channel<T> { Channel([], [], [], 0) }

  predicate Full<T>(c: Channel<T>) { |c.buffer| >= CAPACITY }

  // select { case ch <- value: default: }
  function Send<T>(c: Channel<T>, value: T): Channel<T> {
    if Full(c) then c.(offered := c.offered + [value], dropped := c.dropped + 1)
    else c.(offered := c.offered + [value], buffer := c.buffer + [value])
  }

  // A receive from an empty channel blocks: nothing happens.
  function Step<T>(c: Channel<T>, e: Event<T>): Channel<T> {
    match e
    case Offer(value) => Send(c, value)
    case Receive => if c.buffer == [] then c else c.(buffer := c.buffer[1..], received := c.received + [c.buffer[0]])
  }

  function Run<T>(es: seq<Event<T>>): Channel<T> {
    if es == [] then Empty() else Step(Run(es[..|es| - 1]), es[|es| - 1])
  }

  // The values offered in a run.
  function Offers<T>(es: seq<Event<T>>): seq<T> {
    if es == [] then []
    else Offers(es[..|es| - 1]) + (match es[|es| - 1] case Offer(value) => [value] case Receive => [])
  }

  // a is b with some elements left out.
  predicate Subsequence<T(==)>(a: seq<T>, b: seq<T>) {
    a == [] ||
    (b != [] && ((a[|a| - 1] == b[|b| - 1] && Subsequence(a[..|a| - 1], b[..|b| - 1])) || Subsequence(a, b[..|b| - 1])))
  }

  lemma SubsequenceSnoc<T>(a: seq<T>, b: seq<T>, x: T)
    requires Subsequence(a, b)
    ensures Subsequence(a, b + [x]) && Subsequence(a + [x], b + [x])
  {
    assert (b + [x])[..|b|] == b && (a + [x])[..|a|] == a;
  }

  // ---------- what the events alone say ----------

  // How many values wait in the channel.
  function Backlog<T>(es: seq<Event<T>>): nat {
    if es == [] then 0
    else
      var before := Backlog(es[..|es| - 1]);
      match es[|es| - 1]
      case Offer(_) => if before == 16 then 16 else before + 1
      case Receive => if before == 0 then 0 else before - 1
  }

  // The offers that come while fewer than sixteen wait.
  function Kept<T>(es: seq<Event<T>>): seq<T> {
    if es == [] then []
    else
      Kept(es[..|es| - 1]) +
      (match es[|es| - 1]
       case Offer(value) => if Backlog(es[..|es| - 1]) == 16 then [] else [value]
       case Receive => [])
  }

  // The receives that find something.
  function Fruitful<T>(es: seq<Event<T>>): nat {
    if es == [] then 0
    else Fruitful(es[..|es| - 1]) + if es[|es| - 1].Receive? && Backlog(es[..|es| - 1]) > 0 then 1 else 0
  }

  lemma {:induction false} RunByEvents<T>(es: seq<Event<T>>)
    ensures |Run(es).buffer| == Backlog(es) && Run(es).Delivered() == Kept(es) && |Run(es).received| == Fruitful(es)
    ensures |Kept(es)| + Run(es).dropped == |Offers(es)|
    decreases |es|
  {
    if es != [] {
      var front := es[..|es| - 1];
      RunByEvents(front);
      BacklogBound(front);
      StepByEvents(Run(front), es[|es| - 1]);
      hide Run, Step;
      assert Run(es) == Step(Run(front), es[|es| - 1]) by { RunLast(es); }
    }
  }

  lemma RunLast<T>(es: seq<Event<T>>)
    requires es != []
    ensures Run(es) == Step(Run(es[..|es| - 1]), es[|es| - 1])
  {
  }

  lemma StepByEvents<T>(c: Channel<T>, e: Event<T>)
    requires |c.buffer| <= 16
    ensures var c' := Step(c, e);
            match e
            case Offer(value) =>
              |c'.received| == |c.received| &&
              (if |c.buffer| == 16
               then |c'.buffer| == 16 && c'.Delivered() == c.Delivered() && c'.dropped == c.dropped + 1
               else |c'.buffer| == |c.buffer| + 1 && c'.dropped == c.dropped &&
                    c'.Delivered() == c.Delivered() + [value])
            case Receive =>
              c'.Delivered() == c.Delivered() && c'.dropped == c.dropped &&
              (if |c.buffer| == 0 then |c'.buffer| == 0 && |c'.received| == |c.received|
               else |c'.buffer| == |c.buffer| - 1 && |c'.received| == |c.received| + 1)
  {
  }

  lemma {:induction false} BacklogBound<T>(es: seq<Event<T>>)
    ensures Backlog(es) <= 16
    decreases |es|
  {
    if es != [] {
      BacklogBound(es[..|es| - 1]);
    }
  }

  // The k-th event is an offer that finds sixteen values waiting.
  predicate FullAt<T>(es: seq<Event<T>>, k: nat)
    requires k < |es|
  {
    es[k].Offer? && Backlog(es[..k]) == 16
  }

  lemma StepCounts<T>(c: Channel<T>, e: Event<T>)
    ensures Step(c, e).offered == c.offered + (match e case Offer(value) => [value] case Receive => [])
  {
  }

  lemma FullAtFront<T>(es: seq<Event<T>>)
    requires es != []
    ensures var front := es[..|es| - 1];
            (forall k :: 0 <= k < |es| ==> !FullAt(es, k)) <==>
            (forall k :: 0 <= k < |front| ==> !FullAt(front, k)) && !FullAt(es, |es| - 1)
  {
    hide Backlog;
    var front := es[..|es| - 1];
    forall k | 0 <= k < |front| ensures FullAt(es, k) <==> FullAt(front, k) {
      assert es[..k] == front[..k];
    }
  }

  // Everything is kept exactly when no offer finds the channel full.
  lemma {:induction false} KeptAllIff<T>(es: seq<Event<T>>)
    ensures Subsequence(Kept(es), Offers(es)) && |Kept(es)| <= |Offers(es)|
    ensures Kept(es) == Offers(es) <==> forall k :: 0 <= k < |es| ==> !FullAt(es, k)
    ensures |Kept(es)| == |Offers(es)| <==> forall k :: 0 <= k < |es| ==> !FullAt(es, k)
    decreases |es|
  {
    if es != [] {
      var front := es[..|es| - 1];
      KeptAllIff(front);
      FullAtFront(es);
      hide FullAt, Backlog;
      KeptLast(es);
      match es[|es| - 1]
      case Receive =>
      case Offer(value) =>
        SubsequenceSnoc(Kept(front), Offers(front), value);
    }
  }

  lemma KeptLast<T>(es: seq<Event<T>>)
    requires es != []
    ensures var front, e := es[..|es| - 1], es[|es| - 1];
            Kept(es) == (if e.Offer? && !FullAt(es, |es| - 1) then Kept(front) + [e.value] else Kept(front)) &&
            Offers(es) == (if e.Offer? then Offers(front) + [e.value] else Offers(front)) &&
            (e.Receive? ==> !FullAt(es, |es| - 1))
  {
  }

  lemma {:induction false} RunOffers<T>(es: seq<Event<T>>)
    ensures Run(es).offered == Offers(es)
    decreases |es|
  {
    if es != [] {
      RunOffers(es[..|es| - 1]);
      StepCounts(Run(es[..|es| - 1]), es[|es| - 1]);
    }
  }

  // On every run, by its events alone: what the subscriber has received plus what waits in
  // its channel are the offers that found fewer than sixteen waiting, in order; it has
  // received the first of them, one for each receive that found something; and nothing
  // is missing exactly when no offer found sixteen waiting.
  lemma DeliveryIsOrderedAndExactIff<T>(es: seq<Event<T>>)
    ensures Run(es).Delivered() == Kept(es) && Subsequence(Kept(es), Offers(es))
    ensures |Run(es).received| == Fruitful(es) <= |Kept(es)| && Run(es).received == Kept(es)[..Fruitful(es)]
    ensures Run(es).offered == Offers(es) && |Kept(es)| + Run(es).dropped == |Offers(es)|
    ensures Run(es).Delivered() == Offers(es) <==> forall k :: 0 <= k < |es| ==> !FullAt(es, k)
  {
    RunByEvents(es);
    RunOffers(es);
    KeptAllIff(es);
    assert Run(es).Delivered()[..|Run(es).received|] == Run(es).received;
  }
}
