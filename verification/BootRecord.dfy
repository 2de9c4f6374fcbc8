/** The record one boot leaves of the session it presented: the files boot-session.pub and boot-session, written
    before the first quote by each client that gets so far. Clients of one boot follow one another; each may stop
    between any two steps. */
module BootRecord {
  import opened Results

  /** Where a client is. A client's number stands for the session ID and key it drew; no two clients draw the same. */
  datatype Client =
    | Off
    | Asking(id: nat, presented: bool)
    | WritingKey(id: nat)
    | WritingSession(id: nat)
    | Undoing(id: nat, sessionRemoved: bool)
    | Quoting(id: nat, presented: bool)

  /** A quote sent to some peer, and whether this session's record was there when it was taken. */
  datatype Sent = Sent(id: nat, recorded: bool)

  /** `kept`: the client was given a directory for its record. `failures`: writes that failed so far. */
  datatype State = State(kept: bool, key: Option<nat>, session: Option<nat>, client: Client, next: nat,
                         quotes: seq<Sent>, failures: nat)

  datatype Step = Start | Present | Write(ok: bool) | Remove(ok: bool) | Quote(ok: bool) | Stop

  function Initial(kept: bool): State { State(kept, None, None, Off, 0, [], 0) }

  /** A step that does not fit where the client is changes nothing. */
  function Do(s: State, step: Step): State {
    match (step, s.client)
    case (Start, Off) =>
      if s.kept && s.session.Some? then s else s.(client := Asking(s.next, false), next := s.next + 1)
    case (Present, Asking(id, presented)) =>
      s.(client := if s.kept && !presented then WritingKey(id) else Quoting(id, presented))
    case (Write(ok), WritingKey(id)) =>
      if ok then s.(key := Some(id), client := WritingSession(id))
      else s.(client := Undoing(id, false), failures := s.failures + 1)
    case (Write(ok), WritingSession(id)) =>
      if ok then s.(session := Some(id), client := Quoting(id, true))
      else s.(client := Undoing(id, false), failures := s.failures + 1)
    case (Remove(ok), Undoing(id, false)) =>
      s.(session := if ok then None else s.session, client := Undoing(id, true))
    case (Remove(ok), Undoing(id, true)) =>
      s.(key := if ok then None else s.key, client := Quoting(id, false))
    case (Quote(ok), Quoting(id, presented)) =>
      var asking := s.(client := Asking(id, presented));
      if ok then asking.(quotes := s.quotes + [Sent(id, s.session == Some(id))]) else asking
    case (Stop, _) => s.(client := Off)
    case _ => s
  }

  function Run(s: State, steps: seq<Step>): State {
    if steps == [] then s else Do(Run(s, steps[..|steps| - 1]), steps[|steps| - 1])
  }

  // ---- what a client does undisturbed ----

  lemma RunSnoc(s: State, steps: seq<Step>, step: Step)
    ensures Run(s, steps + [step]) == Do(Run(s, steps), step)
  {
    assert (steps + [step])[..|steps|] == steps;
  }

  /** A client that finds no record writes the key, then the session, and only then quotes. */
  lemma FirstClientRecords(s: State)
    requires s.kept && s.client.Off? && s.session.None?
    ensures Run(s, [Start] + [Present] + [Write(true)] + [Write(true)] + [Quote(true)])
            == s.(key := Some(s.next), session := Some(s.next), client := Asking(s.next, true), next := s.next + 1,
                  quotes := s.quotes + [Sent(s.next, true)])
  {
    RunSnoc(s, [], Start);
    assert [] + [Start] == [Start];
    RunSnoc(s, [Start], Present);
    RunSnoc(s, [Start] + [Present], Write(true));
    RunSnoc(s, [Start] + [Present] + [Write(true)], Write(true));
    RunSnoc(s, [Start] + [Present] + [Write(true)] + [Write(true)], Quote(true));
  }

  /** One whose session cannot be written takes away what it wrote, quotes all the same, and tries again. */
  lemma UnwrittenIsUndone(s: State)
    requires s.kept && s.client.Off? && s.session.None?
    ensures Run(s, [Start] + [Present] + [Write(true)] + [Write(false)] + [Remove(true)] + [Remove(true)]
                   + [Quote(true)])
            == s.(key := None, client := Asking(s.next, false), next := s.next + 1,
                  quotes := s.quotes + [Sent(s.next, false)], failures := s.failures + 1)
  {
    RunSnoc(s, [], Start);
    assert [] + [Start] == [Start];
    RunSnoc(s, [Start], Present);
    var written := [Start] + [Present] + [Write(true)];
    RunSnoc(s, [Start] + [Present], Write(true));
    RunSnoc(s, written, Write(false));
    RunSnoc(s, written + [Write(false)], Remove(true));
    RunSnoc(s, written + [Write(false)] + [Remove(true)], Remove(true));
    RunSnoc(s, written + [Write(false)] + [Remove(true)] + [Remove(true)], Quote(true));
  }

  /** A client that finds a record asks nobody. */
  lemma LaterClientStandsDown(s: State)
    requires s.kept && s.client.Off? && s.session.Some?
    ensures Do(s, Start) == s
  {
  }

  // ---- what every step keeps ----

  predicate Presented(c: Client) { (c.Asking? || c.Quoting?) && c.presented }

  /** The record is whole, and the client that wrote it is the one that runs, if any does. */
  ghost predicate RecordOk(s: State) {
    && (s.session.Some? ==> s.key == s.session && s.kept)
    && (Presented(s.client) ==> s.session == Some(s.client.id))
    && (s.session.Some? ==> s.client.Off? || (Presented(s.client) && s.session == Some(s.client.id)))
    && (s.client.WritingKey? || s.client.WritingSession? || s.client.Undoing? ==> s.kept)
    && (s.client.WritingSession? ==> s.key == Some(s.client.id))
    && (s.kept && s.failures == 0 ==> (s.client.Quoting? ==> s.client.presented) && !s.client.Undoing?)
  }

  /** A quote whose session was recorded then is of the session that is recorded now, and so is every later one. */
  ghost predicate QuotesOk(s: State) {
    && (!s.client.Off? ==> s.client.id < s.next) && (forall q | q in s.quotes :: q.id < s.next)
    && (forall i | 0 <= i < |s.quotes| :: s.quotes[i].recorded ==> s.session == Some(s.quotes[i].id))
    && (forall i, j | 0 <= i < j < |s.quotes| && s.quotes[i].recorded :: s.quotes[j].id == s.quotes[i].id)
    && (s.kept && s.failures == 0 ==> forall q | q in s.quotes :: q.recorded)
  }

  ghost predicate Inv(s: State) { RecordOk(s) && QuotesOk(s) }

  lemma DoKeepsRecord(s: State, step: Step)
    requires RecordOk(s)
    ensures RecordOk(Do(s, step)) && Do(s, step).kept == s.kept && s.failures <= Do(s, step).failures
    ensures s.session.Some? ==> Do(s, step).session == s.session
    ensures s.quotes <= Do(s, step).quotes
  {
  }

  lemma DoKeepsQuotes(s: State, step: Step)
    requires Inv(s)
    ensures QuotesOk(Do(s, step))
  {
    DoKeepsRecord(s, step);
    var e := Do(s, step);
    if e.quotes != s.quotes {
      assert e.quotes == s.quotes + [Sent(s.client.id, s.session == Some(s.client.id))];
    }
  }

  lemma DoKeepsInv(s: State, step: Step)
    requires Inv(s)
    ensures Inv(Do(s, step)) && Do(s, step).kept == s.kept && s.failures <= Do(s, step).failures
    ensures s.quotes <= Do(s, step).quotes
    ensures s.session.Some? ==> Do(s, step).session == s.session
  {
    DoKeepsRecord(s, step);
    DoKeepsQuotes(s, step);
    hide Do, RecordOk, QuotesOk;
  }

  lemma {:induction false} RunKeepsInv(s: State, steps: seq<Step>)
    requires Inv(s)
    ensures Inv(Run(s, steps)) && Run(s, steps).kept == s.kept
    ensures s.quotes <= Run(s, steps).quotes
    ensures s.session.Some? ==> Run(s, steps).session == s.session
  {
    if steps != [] {
      RunKeepsInv(s, steps[..|steps| - 1]);
      DoKeepsInv(Run(s, steps[..|steps| - 1]), steps[|steps| - 1]);
      hide Inv, Do;
    }
  }

  // ---- the promises ----

  /** Whatever fails and wherever clients stop, boot-session is never there without the key of that same session
      beside it. */
  lemma RecordIsWhole(kept: bool, steps: seq<Step>)
    ensures var s := Run(Initial(kept), steps); s.session.Some? ==> s.key == s.session
  {
    RunKeepsInv(Initial(kept), steps);
  }

  /** While the record can be written, one session at most is ever quoted to any peer. */
  lemma OneSessionQuoted(steps: seq<Step>, p: Sent, q: Sent)
    requires var s := Run(Initial(true), steps); s.failures == 0 && p in s.quotes && q in s.quotes
    ensures p.id == q.id
  {
    RunKeepsInv(Initial(true), steps);
  }

  /** When writes fail, a second session is quoted only after quotes whose session had no record. */
  lemma SecondSessionFollowsUnrecorded(kept: bool, steps: seq<Step>, i: nat, j: nat)
    requires var s := Run(Initial(kept), steps); i < j < |s.quotes| && s.quotes[i].id != s.quotes[j].id
    ensures !Run(Initial(kept), steps).quotes[i].recorded
  {
    RunKeepsInv(Initial(kept), steps);
  }

  ghost predicate QuotesAnother(s: State, id: nat, steps: seq<Step>) {
    exists q | q in Run(s, steps).quotes :: q.id != id
  }

  const SECOND_CLIENT: seq<Step> := [Stop, Start, Present, Write(true), Write(true), Quote(true)]

  lemma OneMore(s: State, steps: seq<Step>, step: Step, more: seq<Step>)
    requires more == steps + [step]
    ensures Run(s, more) == Do(Run(s, steps), step)
  {
    assert more[..|steps|] == steps;
  }

  lemma SecondClientQuotes(s: State)
    requires s.kept && s.session.None?
    ensures Sent(s.next, true) in Run(s, SECOND_CLIENT).quotes
  {
    OneMore(s, [], Stop, [Stop]);
    OneMore(s, [Stop], Start, [Stop, Start]);
    OneMore(s, [Stop, Start], Present, [Stop, Start, Present]);
    OneMore(s, [Stop, Start, Present], Write(true), [Stop, Start, Present, Write(true)]);
    OneMore(s, [Stop, Start, Present, Write(true)], Write(true), [Stop, Start, Present, Write(true), Write(true)]);
    OneMore(s, [Stop, Start, Present, Write(true), Write(true)], Quote(true),
            [Stop, Start, Present, Write(true), Write(true), Quote(true)]);
    assert Run(s, []) == s;
    hide Run;
  }

  lemma WaitingClientQuotes(s: State)
    requires Inv(s) && s.session.Some? && !s.client.Off?
    ensures Sent(s.session.value, true) in Run(s, [Present, Quote(true)]).quotes
  {
    OneMore(s, [], Present, [Present]);
    OneMore(s, [Present], Quote(true), [Present, Quote(true)]);
  }

  /** Exactly then: once a session was quoted, some continuation quotes another one if, and only if, there is no
      record, or the record is of another session whose client still runs. */
  lemma AnotherSessionIffUnrecorded(s: State, first: Sent)
    requires Inv(s) && s.kept && first in s.quotes && forall q | q in s.quotes :: q.id == first.id
    ensures (exists steps :: QuotesAnother(s, first.id, steps))
            <==> s.session.None? || (s.session != Some(first.id) && !s.client.Off?)
  {
    if s.session.None? {
      SecondClientQuotes(s);
      assert QuotesAnother(s, first.id, SECOND_CLIENT);
    } else if s.session != Some(first.id) && !s.client.Off? {
      WaitingClientQuotes(s);
      assert QuotesAnother(s, first.id, [Present, Quote(true)]);
    } else {
      forall steps ensures !QuotesAnother(s, first.id, steps) { RecordStopsOthers(s, first, steps); }
    }
  }

  lemma {:induction false} RecordStopsOthers(s: State, first: Sent, steps: seq<Step>)
    requires Inv(s) && s.kept && first in s.quotes && forall q | q in s.quotes :: q.id == first.id
    requires s.session.Some? && (s.session == Some(first.id) || s.client.Off?)
    ensures !QuotesAnother(s, first.id, steps)
    ensures s.session == Some(first.id) || Run(s, steps).client.Off?
  {
    if steps != [] {
      RecordStopsOthers(s, first, steps[..|steps| - 1]);
      RunKeepsInv(s, steps[..|steps| - 1]);
      RunKeepsInv(s, steps);
    }
  }

  /** A run that does quote two sessions: the first client's record could not be written. */
  const UNWRITABLE: seq<Step> := [Start, Present, Write(false), Remove(true), Remove(true), Quote(true)]

  lemma UnwritableQuotes(s: State)
    requires s == Initial(true)
    ensures var m := Run(s, UNWRITABLE); m.quotes == [Sent(0, false)] && m.next == 1 && m.session.None? && m.kept
  {
    OneMore(s, [], Start, [Start]);
    OneMore(s, [Start], Present, [Start, Present]);
    OneMore(s, [Start, Present], Write(false), [Start, Present, Write(false)]);
    OneMore(s, [Start, Present, Write(false)], Remove(true), [Start, Present, Write(false), Remove(true)]);
    OneMore(s, [Start, Present, Write(false), Remove(true)], Remove(true),
            [Start, Present, Write(false), Remove(true), Remove(true)]);
    OneMore(s, [Start, Present, Write(false), Remove(true), Remove(true)], Quote(true),
            [Start, Present, Write(false), Remove(true), Remove(true), Quote(true)]);
    assert Run(s, []) == s;
    hide Run;
  }

  lemma UnwritableRecordAllowsTwo()
    ensures var s := Run(Run(Initial(true), UNWRITABLE), SECOND_CLIENT);
            Sent(0, false) in s.quotes
            && Sent(1, true) in s.quotes
  {
    var m := Run(Initial(true), UNWRITABLE);
    UnwritableQuotes(Initial(true));
    RunKeepsInv(Initial(true), UNWRITABLE);
    hide Run, Do;
    SecondClientQuotes(m);
    RunKeepsInv(m, SECOND_CLIENT);
    assert m.quotes[0] in Run(m, SECOND_CLIENT).quotes;
  }
}
