/** One queue content, three implementations of expiry. */
module ExpiryAgreement {
  import opened Common
  import opened Expiry
  import MQ = MessageQueue
  import Q = QosQueue

  /** What `MessageQueue` holds when the same messages were queued at the same times. */
  function AsEntries(es: seq<Q.Stamped>, ttl: nat): seq<MQ.Entry> {
    if es == [] then [] else [MQ.Entry(es[0].msg, es[0].at + ttl)] + AsEntries(es[1..], ttl)
  }

  function Texts(es: seq<MQ.Entry>): seq<Message> {
    if es == [] then [] else [es[0].msg] + Texts(es[1..])
  }

  function StampedTexts(es: seq<Q.Stamped>): seq<Message> {
    if es == [] then [] else [es[0].msg] + StampedTexts(es[1..])
  }

  ghost predicate StampsNeverDecrease(es: seq<Q.Stamped>) {
    forall i, j | 0 <= i < j < |es| :: es[i].at <= es[j].at
  }

  lemma {:induction false} EntriesAt(es: seq<Q.Stamped>, ttl: nat)
    ensures |AsEntries(es, ttl)| == |es|
    ensures forall i | 0 <= i < |es| :: AsEntries(es, ttl)[i] == MQ.Entry(es[i].msg, es[i].at + ttl)
  {
    if es == [] {
    } else {
      EntriesAt(es[1..], ttl);
    }
  }

  lemma TextsCons(e: MQ.Entry, es: seq<MQ.Entry>, x: Q.Stamped, xs: seq<Q.Stamped>)
    ensures Texts([e] + es) == [e.msg] + Texts(es)
    ensures StampedTexts([x] + xs) == [x.msg] + StampedTexts(xs)
  {
    assert ([e] + es)[1..] == es && ([x] + xs)[1..] == xs;
  }

  /** Deadline passed, or age above the TTL: the same messages survive, whatever their order. */
  lemma {:induction false} DeadlineIsAge(es: seq<Q.Stamped>, o: Q.Options, now: nat)
    requires o.ttl > 0
    ensures Texts(Keep(AsEntries(es, o.ttl), MQ.DeadAt(now))) == StampedTexts(Keep(es, Q.DeadAt(o, now)))
  {
    if es == [] {
    } else {
      DeadlineIsAge(es[1..], o, now);
      var e := MQ.Entry(es[0].msg, es[0].at + o.ttl);
      assert es == [es[0]] + es[1..];
      KeepCons(es[0], es[1..], Q.DeadAt(o, now));
      KeepCons(e, AsEntries(es[1..], o.ttl), MQ.DeadAt(now));
      var entries, stamped := Keep(AsEntries(es[1..], o.ttl), MQ.DeadAt(now)), Keep(es[1..], Q.DeadAt(o, now));
      TextsCons(e, entries, es[0], stamped);
      assert [] + entries == entries && [] + stamped == stamped;
      assert MQ.DeadAt(now)(e) <==> Q.DeadAt(o, now)(es[0]);
    }
  }

  /**
    The front-skipping loop of `pop`, the erasing loop of `purge_expired` and the compacting pass of
    `QosPipe` let the same messages live, in the same order, because the stamps never decrease.
   */
  lemma ThreeExpiriesAgree(es: seq<Q.Stamped>, o: Q.Options, now: nat)
    requires o.ttl > 0 && StampsNeverDecrease(es)
    ensures
      var entries := AsEntries(es, o.ttl);
      && Texts(SkipFront(entries, MQ.DeadAt(now))) == Texts(Keep(entries, MQ.DeadAt(now)))
      && Texts(Keep(entries, MQ.DeadAt(now))) == StampedTexts(Keep(es, Q.DeadAt(o, now)))
  {
    DeadlineIsAge(es, o, now);
    EntriesAt(es, o.ttl);
    SkipIsKeep(AsEntries(es, o.ttl), MQ.DeadAt(now));
  }
}
