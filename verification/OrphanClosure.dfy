/** What one new transaction unlocks: the orphans that can be promoted, in rounds. */
module OrphanClosure {
  import opened TxPoolState

  type Waiting = map<TxID, Tx>

  function TxsOf(orphans: map<TxID, Orphan>): Waiting {
    map o | o in orphans :: orphans[o].tx
  }

  function Ready(orphans: Waiting, avail: set<OutputID>): set<TxID> {
    set o | o in orphans && Spent(orphans[o]) <= avail
  }

  function OutsOf(ids: set<TxID>, orphans: Waiting): set<OutputID> {
    set o, h | o in ids && o in orphans && h in Outs(orphans[o]) :: h
  }

  function ResultsOf(ids: set<TxID>, orphans: Waiting): set<OutputID> {
    set o, h | o in ids && o in orphans && h in Results(orphans[o]) :: h
  }

  /** Promote all that are ready, then all that this makes ready, until nothing is. */
  ghost function Closure(orphans: Waiting, avail: set<OutputID>): (promoted: set<TxID>)
    ensures promoted <= orphans.Keys
    decreases orphans.Keys
  {
    var now := Ready(orphans, avail);
    if now == {} then {}
    else now + Closure(orphans - now, avail + OutsOf(now, orphans))
  }

  /** The rounds promote nothing that a set closed under promotion could do without. */
  lemma {:induction false} ClosureIsLeast(orphans: Waiting, avail: set<OutputID>, p: set<TxID>)
    requires forall o :: o in orphans && Spent(orphans[o]) <= avail + OutsOf(p, orphans) ==> o in p
    ensures Closure(orphans, avail) <= p
    decreases orphans.Keys
  {
    var now := Ready(orphans, avail);
    if now != {} {
      var rest, avail' := orphans - now, avail + OutsOf(now, orphans);
      forall o | o in rest && Spent(rest[o]) <= avail' + OutsOf(p - now, rest) ensures o in p - now {
        assert avail' + OutsOf(p - now, rest) <= avail + OutsOf(p, orphans);
      }
      ClosureIsLeast(rest, avail', p - now);
    }
  }

  /** The rounds leave nothing behind that what they promoted makes ready. */
  lemma {:induction false} ClosureIsClosed(orphans: Waiting, avail: set<OutputID>, o: TxID)
    requires o in orphans && Spent(orphans[o]) <= avail + OutsOf(Closure(orphans, avail), orphans)
    ensures o in Closure(orphans, avail)
    decreases orphans.Keys
  {
    var now := Ready(orphans, avail);
    if now != {} && o !in now {
      var rest, avail' := orphans - now, avail + OutsOf(now, orphans);
      var later := Closure(rest, avail');
      forall h | h in OutsOf(now + later, orphans) ensures h in OutsOf(now, orphans) + OutsOf(later, rest) {
        var t :| t in now + later && t in orphans && h in Outs(orphans[t]);
        assert t !in now ==> t in rest;
      }
      ClosureIsClosed(rest, avail', o);
    }
  }

  /** Any promotion order that only takes what is ready and stops when nothing is finds the closure. */
  lemma ClosureIsUnique(orphans: Waiting, avail: set<OutputID>, p: set<TxID>)
    requires p <= Closure(orphans, avail)
    requires forall o :: o in orphans && Spent(orphans[o]) <= avail + OutsOf(p, orphans) ==> o in p
    ensures p == Closure(orphans, avail)
  {
    ClosureIsLeast(orphans, avail, p);
  }

  lemma MoreIsReady(orphans: Waiting, avail: set<OutputID>, p: set<TxID>, o: TxID)
    requires p <= Closure(orphans, avail)
    requires o in orphans && Spent(orphans[o]) <= avail + OutsOf(p, orphans)
    ensures p + {o} <= Closure(orphans, avail)
  {
    assert OutsOf(p, orphans) <= OutsOf(Closure(orphans, avail), orphans);
    ClosureIsClosed(orphans, avail, o);
  }
}
