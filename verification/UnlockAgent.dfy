/** The unlock client as a password agent: it asks the peers again and again until one gives its half, then answers
    each request for the volume's passphrase, a few times at most, until the volume is open. What the agent touches is
    one `Round` for each turn of its loop, and every value in it is arbitrary. */
module UnlockAgent {
  import opened Octets
  import opened Results
  import opened UnlockWire
  import opened UnlockSession
  import opened UnlockGuarantees
  import opened UnlockCadence

  const MAX_ANSWERS := 5

  datatype Token = Token(pathEpoch: Uint64, keyslot: bytes)

  /** The boot configuration and the disk's paths: for each peer the tokens it may help by, newest first. */
  datatype Config = Config(nodeId: bytes, peers: seq<Pin>, paths: map<bytes, seq<Token>>, attempts: nat)

  ghost predicate IsConfig(config: Config) { forall p | p in config.peers :: IsPin(p) }

  /** The way to one peer in one attempt, and what the TPM would say. */
  datatype Way = Way(send: Transport, quote: Digest -> Option<Quote>)

  /** One turn of the loop: whether the volume is open at its start; should it come to an attempt, the way to each
      peer, how long it takes, the jitter, and each look during the pause; the request that is there, and whether an
      answer reaches it. */
  datatype Round = Round(open: bool, ways: nat -> Way, took: nat, jitter: real, looks: nat -> bool,
                         found: Option<string>, delivered: bool)

  function Tokens(config: Config, peer: nat): seq<Token>
    requires peer < |config.peers|
  {
    var id := config.peers[peer].nodeId;
    if id in config.paths then config.paths[id] else []
  }

  /** What attempt `step` asks of a peer: one exchange, by the next of its paths. */
  function ExchangeOf(config: Config, round: Round, step: nat, peer: nat): Exchange
    requires peer < |config.peers| && Tokens(config, peer) != []
  {
    var tokens, way := Tokens(config, peer), round.ways(peer);
    Exchange(config.peers[peer], tokens[step % |tokens|].pathEpoch, way.send, way.quote)
  }

  /** No peer up to this one helps in this attempt. */
  ghost predicate NoHelpFrom(c: Crypto, config: Config, boot: Boot, round: Round, step: nat, upTo: nat)
    requires IsConfig(config) && upTo <= |config.peers|
  {
    forall p | 0 <= p < upTo && Tokens(config, p) != [] :: Outcome(c, boot, ExchangeOf(config, round, step, p)).None?
  }

  ghost predicate NothingToAsk(config: Config) {
    forall p | 0 <= p < |config.peers| :: Tokens(config, p) == []
  }

  datatype Tried = Nothing | BadHalf(peer: nat) | NoHelp | Helped(key: bytes, peer: nat, slot: bytes)

  /** The key is the derivation of both halves for the path that was asked for. */
  ghost predicate KeyOf(c: Crypto, hkdf: Hkdf, config: Config, boot: Boot, round: Round, step: nat, half: bytes,
                        peer: nat, key: bytes)
    requires IsConfig(config)
  {
    && peer < |config.peers| && Tokens(config, peer) != []
    && var x := ExchangeOf(config, round, step, peer);
    var o := Outcome(c, boot, x);
    && o.Some? && |half| == SECRET_BYTES
    && var h := HalvesOf(half, o.value.secret, config.nodeId, x.pin.nodeId, x.pathEpoch);
    KeyFrom(hkdf, h) == Some(key)
  }

  /** The peer gave its half, and no key comes of it: the local half is not of its size, or the derivation fails. */
  ghost predicate NoKeyOf(c: Crypto, hkdf: Hkdf, config: Config, boot: Boot, round: Round, step: nat, half: bytes,
                          peer: nat)
    requires IsConfig(config)
  {
    && peer < |config.peers| && Tokens(config, peer) != []
    && var x := ExchangeOf(config, round, step, peer);
    var o := Outcome(c, boot, x);
    && o.Some?
    && (|half| == SECRET_BYTES
        ==> KeyFrom(hkdf, HalvesOf(half, o.value.secret, config.nodeId, x.pin.nodeId, x.pathEpoch)).None?)
  }

  /** This peer is the first to give its half, and no key comes of it. */
  ghost predicate NoKeyFrom(c: Crypto, hkdf: Hkdf, config: Config, boot: Boot, round: Round, step: nat, half: bytes,
                            peer: nat)
    requires IsConfig(config)
  {
    && peer <= |config.peers| && NoHelpFrom(c, config, boot, round, step, peer)
    && NoKeyOf(c, hkdf, config, boot, round, step, half, peer)
  }

  /** One peer asked, by one of its paths; and the key, if it gave its half. */
  method AskPeer(c: Crypto, hkdf: Hkdf, config: Config, step: nat, round: Round, local: array<byte>, boot: Session,
                 peer: nat)
    returns (r: Tried, hellos: nat)
    requires IsConfig(config) && peer < |config.peers| && Tokens(config, peer) != []
    modifies boot
    ensures r.NoHelp? <==> Outcome(c, old(boot.View()), ExchangeOf(config, round, step, peer)).None?
    ensures r.NoHelp? ==> SameSession(boot.View(), old(boot.View()))
    ensures !r.Nothing? && (r.Helped? || r.BadHalf? ==> r.peer == peer)
    ensures hellos == HelloCount(old(boot.View()), ExchangeOf(config, round, step, peer))
    ensures r.BadHalf? <==> NoKeyOf(c, hkdf, config, old(boot.View()), round, step, local[..], peer)
    ensures r.Helped? ==> KeyOf(c, hkdf, config, old(boot.View()), round, step, local[..], peer, r.key)
    ensures r.Helped? ==> r.slot == (var ts := Tokens(config, peer); ts[step % |ts|].keyslot)
  {
    hide Outcome, HalvesOf, KeyFrom, Sent, HelloCount, CountHellos, Genuine;
    var tokens := Tokens(config, peer);
    var token := tokens[step % |tokens|];
    var x := ExchangeOf(config, round, step, peer);
    var given, sent := boot.Ask(c, x);
    AtMostTwoHellos(c, old(boot.View()), x);
    hellos := CountHellos(sent);
    if given.Err? { return NoHelp, hellos; }
    AcceptedIsGenuine(c, old(boot.View()), x);
    var contribution := new byte[|given.value|](i requires 0 <= i < |given.value| => given.value[i]);
    assert contribution[..] == given.value;
    var key, ikm, derived := Credential(hkdf, local, contribution, config.nodeId, x.pin.nodeId, token.pathEpoch);
    Wipe(contribution);
    r := if key.None? then BadHalf(peer) else Helped(key.value, peer, token.keyslot);
  }

  /** How many hellos an attempt sends a peer: none without a path to it, nor once a peer before it helped. */
  ghost function HellosTo(c: Crypto, config: Config, boot: Boot, round: Round, step: nat, peer: nat): (n: nat)
    requires IsConfig(config) && peer < |config.peers|
    ensures n <= 2
  {
    if Tokens(config, peer) != [] && NoHelpFrom(c, config, boot, round, step, peer)
    then HelloCount(boot, ExchangeOf(config, round, step, peer)) else 0
  }

  ghost predicate HellosOk(c: Crypto, config: Config, boot: Boot, round: Round, step: nat, hellos: seq<nat>)
    requires IsConfig(config)
  {
    && |hellos| == |config.peers|
    && forall p | 0 <= p < |hellos| :: hellos[p] == HellosTo(c, config, boot, round, step, p)
  }

  /** The same for the peers before this one, and none yet to the others. */
  ghost predicate HellosUpTo(c: Crypto, config: Config, boot: Boot, round: Round, step: nat, hellos: seq<nat>,
                             upTo: nat)
    requires IsConfig(config)
  {
    && |hellos| == |config.peers|
    && forall p | 0 <= p < |hellos| ::
      hellos[p] == if p < upTo then HellosTo(c, config, boot, round, step, p) else 0
  }

  lemma OneMorePeer(c: Crypto, config: Config, boot: Boot, round: Round, step: nat, hellos: seq<nat>, peer: nat)
    requires IsConfig(config) && peer < |config.peers| && HellosUpTo(c, config, boot, round, step, hellos, peer)
    requires NoHelpFrom(c, config, boot, round, step, peer)
    ensures Tokens(config, peer) == [] ==> HellosUpTo(c, config, boot, round, step, hellos, peer + 1)
    ensures Tokens(config, peer) != []
            ==> var n := HelloCount(boot, ExchangeOf(config, round, step, peer));
                HellosUpTo(c, config, boot, round, step, hellos[peer := n], peer + 1)
  {
    hide Outcome, HelloCount, ExchangeOf;
  }

  /** Nothing is sent after a peer helped, and there is nobody after the last. */
  lemma NoMorePeers(c: Crypto, config: Config, boot: Boot, round: Round, step: nat, hellos: seq<nat>, upTo: nat)
    requires IsConfig(config) && upTo <= |config.peers| && HellosUpTo(c, config, boot, round, step, hellos, upTo)
    requires upTo == |config.peers| || !NoHelpFrom(c, config, boot, round, step, upTo)
    ensures HellosOk(c, config, boot, round, step, hellos)
  {
    hide Outcome, HelloCount, ExchangeOf;
    forall p | upTo <= p < |hellos| ensures HellosTo(c, config, boot, round, step, p) == 0 {
      assert !NoHelpFrom(c, config, boot, round, step, p);
    }
  }

  lemma Helps(c: Crypto, config: Config, boot: Boot, round: Round, step: nat, peer: nat)
    requires IsConfig(config) && peer < |config.peers| && Tokens(config, peer) != []
    requires Outcome(c, boot, ExchangeOf(config, round, step, peer)).Some?
    ensures !NoHelpFrom(c, config, boot, round, step, peer + 1)
  {
    hide Outcome, ExchangeOf;
  }

  lemma SameHellos(c: Crypto, config: Config, a: Boot, b: Boot, round: Round, step: nat, hellos: seq<nat>)
    requires IsConfig(config) && SameSession(a, b) && HellosOk(c, config, a, round, step, hellos)
    requires forall upTo: nat | upTo <= |config.peers| ::
               NoHelpFrom(c, config, a, round, step, upTo) <==> NoHelpFrom(c, config, b, round, step, upTo)
    ensures HellosOk(c, config, b, round, step, hellos)
  {
    hide Outcome, NoHelpFrom;
  }

  /** One pass over the peers, each asked once, until one helps. */
  method Attempt(c: Crypto, hkdf: Hkdf, config: Config, step: nat, round: Round, local: array<byte>, boot: Session)
    returns (r: Tried, hellos: seq<nat>)
    requires IsConfig(config)
    modifies boot
    ensures HellosOk(c, config, old(boot.View()), round, step, hellos)
    ensures r.Nothing? <==> NothingToAsk(config)
    ensures r.Nothing? || r.NoHelp?
            ==> SameSession(boot.View(), old(boot.View()))
                && NoHelpFrom(c, config, old(boot.View()), round, step, |config.peers|)
    ensures r.BadHalf? ==> NoKeyFrom(c, hkdf, config, old(boot.View()), round, step, local[..], r.peer)
    ensures r.Helped?
            ==> && r.peer < |config.peers| && Tokens(config, r.peer) != []
                && KeyOf(c, hkdf, config, old(boot.View()), round, step, local[..], r.peer, r.key)
                && NoHelpFrom(c, config, old(boot.View()), round, step, r.peer)
                && r.slot == (var ts := Tokens(config, r.peer); ts[step % |ts|].keyslot)
  {
    hide Outcome, KeyOf, NoKeyOf, ExchangeOf, HellosUpTo, HellosOk, HelloCount;
    var asked := false;
    hellos := seq(|config.peers|, i => 0);
    ghost var before := boot.View();
    NoHellosYet(c, config, before, round, step);
    for p := 0 to |config.peers|
      invariant SameSession(boot.View(), before) && NoHelpFrom(c, config, before, round, step, p)
                && HellosUpTo(c, config, before, round, step, hellos, p)
      invariant |hellos| == |config.peers|
      invariant !asked <==> forall q | 0 <= q < p :: Tokens(config, q) == []
    {
      OneMorePeer(c, config, before, round, step, hellos, p);
      if Tokens(config, p) != [] {
        asked := true;
        SameOutcome(c, hkdf, config, boot.View(), before, round, step, local[..], p);
        var n;
        r, n := AskPeer(c, hkdf, config, step, round, local, boot, p);
        hellos := hellos[p := n];
        if !r.NoHelp? {
          Helps(c, config, before, round, step, p);
          NoMorePeers(c, config, before, round, step, hellos, p + 1);
          return;
        }
      }
    }
    NoMorePeers(c, config, before, round, step, hellos, |config.peers|);
    r := if asked then NoHelp else Nothing;
  }

  lemma NoHellosYet(c: Crypto, config: Config, boot: Boot, round: Round, step: nat)
    requires IsConfig(config)
    ensures HellosUpTo(c, config, boot, round, step, seq(|config.peers|, i => 0), 0)
  {
  }

  lemma SameHelp(c: Crypto, hkdf: Hkdf, config: Config, a: Boot, b: Boot, round: Round, step: nat, half: bytes)
    requires IsConfig(config) && SameSession(a, b)
    ensures forall upTo: nat | upTo <= |config.peers| ::
              NoHelpFrom(c, config, a, round, step, upTo) <==> NoHelpFrom(c, config, b, round, step, upTo)
    ensures forall p: nat ::
              NoKeyOf(c, hkdf, config, a, round, step, half, p) <==> NoKeyOf(c, hkdf, config, b, round, step, half, p)
    ensures forall p, key ::
              KeyOf(c, hkdf, config, a, round, step, half, p, key)
              <==> KeyOf(c, hkdf, config, b, round, step, half, p, key)
  {
    hide Outcome, HalvesOf, KeyFrom;
    forall p | 0 <= p < |config.peers| && Tokens(config, p) != []
      ensures Outcome(c, a, ExchangeOf(config, round, step, p)) == Outcome(c, b, ExchangeOf(config, round, step, p))
      ensures NoKeyOf(c, hkdf, config, a, round, step, half, p) <==> NoKeyOf(c, hkdf, config, b, round, step, half, p)
      ensures forall key ::
                KeyOf(c, hkdf, config, a, round, step, half, p, key)
                <==> KeyOf(c, hkdf, config, b, round, step, half, p, key)
    {
      SameOutcome(c, hkdf, config, a, b, round, step, half, p);
    }
  }

  lemma SameOutcome(c: Crypto, hkdf: Hkdf, config: Config, a: Boot, b: Boot, round: Round, step: nat, half: bytes,
                    peer: nat)
    requires IsConfig(config) && peer < |config.peers| && Tokens(config, peer) != [] && SameSession(a, b)
    ensures Outcome(c, a, ExchangeOf(config, round, step, peer)) == Outcome(c, b, ExchangeOf(config, round, step, peer))
    ensures var x := ExchangeOf(config, round, step, peer); HelloCount(a, x) == HelloCount(b, x)
    ensures NoKeyOf(c, hkdf, config, a, round, step, half, peer)
            <==> NoKeyOf(c, hkdf, config, b, round, step, half, peer)
    ensures forall key ::
              KeyOf(c, hkdf, config, a, round, step, half, peer, key)
              <==> KeyOf(c, hkdf, config, b, round, step, half, peer, key)
  {
    hide Outcome, HalvesOf, KeyFrom;
    NotesDecideNothing(c, a, b, ExchangeOf(config, round, step, peer));
  }

  // ---- the agent ----

  datatype Ending =
    | EarlierSession
    | VolumeOpen(round: nat)
    | AttemptsSpent
    | NoPath
    | BadLocalHalf(peer: nat)
    | KeyRefused(round: nat)
    | StillRunning

  /** An attempt: when, the local half it was made with, the hellos to each peer, and the looks of the pause after
      it. */
  datatype Try = Try(span: Span, half: bytes, hellos: seq<nat>, looked: nat)

  datatype Obtained = Obtained(round: nat, key: bytes, peer: nat)

  /** A request answered: in which round, its path, and what it was given. */
  datatype Given = Given(round: nat, path: string, key: bytes)

  /** All an agent did. Attempt i is made in round i: until there is a key, every round makes one. */
  datatype Run = Run(ending: Ending, tries: seq<Try>, obtained: Option<Obtained>, answers: seq<Given>)

  /** Attempts are made while the volume is closed, with the half the agent started with; those before `failed` gave
      nothing. */
  ghost predicate TriesOk(c: Crypto, config: Config, boot: Boot, half: bytes, rounds: seq<Round>, tries: seq<Try>,
                          failed: int)
    requires IsConfig(config)
  {
    && failed <= |tries| <= |rounds|
    && (forall i | 0 <= i < |tries| ::
      && tries[i].half == half && !rounds[i].open
      && HellosOk(c, config, boot, rounds[i], i, tries[i].hellos))
    && (forall i | 0 <= i < failed :: NoHelpFrom(c, config, boot, rounds[i], i, |config.peers|))
  }

  ghost predicate AnswersOk(rounds: seq<Round>, o: Option<Obtained>, answers: seq<Given>) {
    && |answers| <= MAX_ANSWERS && (o.None? ==> answers == [])
    && (forall i | 0 <= i < |answers| ::
      && answers[i].round < |rounds| && answers[i].round >= o.value.round && answers[i].key == o.value.key
      && var r := rounds[answers[i].round]; !r.open && r.delivered && r.found == Some(answers[i].path))
    && (forall i, j | 0 <= i < j < |answers| ::
        answers[i].round < answers[j].round && answers[i].path != answers[j].path)
  }

  /** By the end of round m the request was given the key. */
  predicate AnsweredBy(answers: seq<Given>, m: nat, path: string) {
    exists g | g in answers :: g.round <= m && g.path == path
  }

  /** From the round of the key to before round n every request that was there and could be reached was answered. */
  ghost predicate AllAnswered(rounds: seq<Round>, o: Obtained, answers: seq<Given>, n: nat) {
    && n <= |rounds|
    && forall m | o.round <= m < n && rounds[m].delivered && rounds[m].found.Some? ::
      AnsweredBy(answers, m, rounds[m].found.value)
  }

  /** The volume does not close again once a look of a pause saw it open. */
  ghost predicate StaysOpen(rounds: seq<Round>, tries: seq<Try>) {
    forall i, n | 0 <= i < |tries| && i < |rounds| - 1 && 0 <= n < tries[i].looked && rounds[i].looks(n) ::
        rounds[i + 1].open
  }

  function Spans(tries: seq<Try>): seq<Span> { seq(|tries|, i requires 0 <= i < |tries| => tries[i].span) }

  ghost predicate ClosedUntil(rounds: seq<Round>, n: nat) {
    n <= |rounds| && forall i | 0 <= i < n :: !rounds[i].open
  }

  /** The round at whose start, or in which, the run ended. */
  function EndOf(rounds: seq<Round>, run: Run): nat {
    match run.ending
    case VolumeOpen(round) => round
    case KeyRefused(round) => round
    case StillRunning => |rounds|
    case _ => |run.tries|
  }

  /** Why the run ended: each ending comes only of its own reason. */
  ghost predicate EndingOk(c: Crypto, hkdf: Hkdf, config: Config, boot: Boot, half: bytes, earlier: bool,
                           rounds: seq<Round>, run: Run)
    requires IsConfig(config)
  {
    var tries, end := |run.tries|, EndOf(rounds, run);
    && (run.ending.EarlierSession? <==> earlier)
    && (run.obtained.None? && (run.ending.VolumeOpen? || run.ending.StillRunning?) ==> tries == end)
    && match run.ending
       case EarlierSession => tries == 0 && run.obtained.None?
       case VolumeOpen(_) => end < |rounds| && rounds[end].open && ClosedUntil(rounds, end)
       case AttemptsSpent =>
         run.obtained.None? && tries == config.attempts > 0 && tries < |rounds| && ClosedUntil(rounds, tries + 1)
       case NoPath => run.obtained.None? && tries == 1 && NothingToAsk(config)
       case BadLocalHalf(peer) =>
         && run.obtained.None? && 0 < tries <= |rounds|
         && NoKeyFrom(c, hkdf, config, boot, rounds[tries - 1], tries - 1, half, peer)
       case KeyRefused(_) =>
         && run.obtained.Some? && |run.answers| == MAX_ANSWERS && end < |rounds| && ClosedUntil(rounds, end + 1)
         && rounds[end].found.Some? && rounds[end].found.value !in Paths(run.answers)
       case StillRunning => ClosedUntil(rounds, end)
  }

  /** The key came from the last attempt made, in its round, from the first peer to give its half, by the derivation
      from both halves. */
  ghost predicate ObtainedOk(c: Crypto, hkdf: Hkdf, config: Config, boot: Boot, half: bytes, rounds: seq<Round>,
                             tries: nat, o: Obtained)
    requires IsConfig(config)
  {
    && o.round + 1 == tries <= |rounds| && o.peer <= |config.peers|
    && NoHelpFrom(c, config, boot, rounds[o.round], o.round, o.peer)
    && KeyOf(c, hkdf, config, boot, rounds[o.round], o.round, half, o.peer, o.key)
  }

  // How one more attempt, or one more answer, extends what was done.

  lemma OneMoreTry(c: Crypto, config: Config, boot: Boot, half: bytes, rounds: seq<Round>, tries: seq<Try>, t: Try)
    requires IsConfig(config) && TriesOk(c, config, boot, half, rounds, tries, |tries|)
    requires |tries| < |rounds| && !rounds[|tries|].open && t.half == half
             && HellosOk(c, config, boot, rounds[|tries|], |tries|, t.hellos)
    ensures TriesOk(c, config, boot, half, rounds, tries + [t], |tries|)
    ensures NoHelpFrom(c, config, boot, rounds[|tries|], |tries|, |config.peers|)
            ==> TriesOk(c, config, boot, half, rounds, tries + [t], |tries| + 1)
  {
    hide NoHelpFrom, HellosOk;
  }

  /** When the next attempt is due, if the volume stays closed till then. */
  ghost predicate Due(rounds: seq<Round>, tries: seq<Try>, now: int) {
    tries != [] && |tries| < |rounds| && !rounds[|tries|].open ==> tries[|tries| - 1].span.end + Gap(|tries| - 1) <= now
  }

  lemma OneMoreSpan(rounds: seq<Round>, tries: seq<Try>, t: Try)
    requires Spaced(Spans(tries)) && Due(rounds, tries, t.span.at) && t.span.at <= t.span.end
    requires |tries| < |rounds| && !rounds[|tries|].open
    ensures Spaced(Spans(tries + [t]))
  {
    hide Gap;
    var a, b := Spans(tries), Spans(tries + [t]);
    assert forall i | 0 <= i < |tries| :: b[i] == a[i];
    assert b[|tries|] == t.span;
  }

  lemma NextIsDue(rounds: seq<Round>, tries: seq<Try>, wait: int, slept: int)
    requires tries != [] && StaysOpen(rounds, tries) && |tries| <= |rounds| && 5 * wait >= 4 * Base(|tries| - 1)
    requires var looked := tries[|tries| - 1].looked;
             slept == wait
             || (looked > 0 && rounds[|tries| - 1].looks(looked - 1))
    ensures Due(rounds, tries, tries[|tries| - 1].span.end + slept)
  {
  }

  function Paths(answers: seq<Given>): set<string> { set g | g in answers :: g.path }

  lemma NoPaths()
    ensures Paths([]) == {}
  {
  }

  lemma OneMoreAnswer(rounds: seq<Round>, o: Option<Obtained>, answers: seq<Given>, g: Given)
    requires AnswersOk(rounds, o, answers) && o.Some? && |answers| < MAX_ANSWERS && g.path !in Paths(answers)
    requires o.value.round <= g.round < |rounds| && g.key == o.value.key
             && (forall i | 0 <= i < |answers| :: answers[i].round < g.round)
    requires var r := rounds[g.round]; !r.open && r.delivered && r.found == Some(g.path)
    ensures AnswersOk(rounds, o, answers + [g]) && Paths(answers + [g]) == Paths(answers) + {g.path}
  {
    assert forall i | 0 <= i < |answers| :: answers[i] in answers && answers[i].path in Paths(answers);
    assert Paths(answers + [g]) == Paths(answers) + {g.path};
  }

  lemma AnswersGrow(rounds: seq<Round>, o: Obtained, answers: seq<Given>, g: Given)
    requires AllAnswered(rounds, o, answers, g.round) && g.round < |rounds|
    requires rounds[g.round].found == Some(g.path)
    ensures AllAnswered(rounds, o, answers + [g], g.round + 1)
  {
    var more := answers + [g];
    assert more[|answers|] == g;
    forall m | o.round <= m < g.round + 1 && rounds[m].delivered && rounds[m].found.Some?
      ensures AnsweredBy(more, m, rounds[m].found.value)
    {
      if m < g.round {
        var h :| h in answers && h.round <= m && h.path == rounds[m].found.value;
        assert h in more;
      } else {
        assert g in more;
      }
    }
  }

  lemma NothingToAnswer(rounds: seq<Round>, o: Obtained, answers: seq<Given>, n: nat)
    requires AllAnswered(rounds, o, answers, n) && n < |rounds| && forall g | g in answers :: g.round < n
    requires rounds[n].delivered && rounds[n].found.Some? ==> rounds[n].found.value in Paths(answers)
    ensures AllAnswered(rounds, o, answers, n + 1)
  {
    if rounds[n].delivered && rounds[n].found.Some? {
      var g :| g in answers && g.path == rounds[n].found.value;
      assert AnsweredBy(answers, n, g.path);
    }
  }

  /** All that is promised of a run; `earlier`: another client of this boot had begun. */
  ghost predicate RunOk(c: Crypto, hkdf: Hkdf, config: Config, boot: Boot, half: bytes, earlier: bool,
                        rounds: seq<Round>, run: Run)
    requires IsConfig(config)
  {
    && TriesOk(c, config, boot, half, rounds, run.tries,
               |run.tries| - if run.obtained.Some? || run.ending.BadLocalHalf? then 1 else 0)
    && (run.obtained.Some?
        ==> && ObtainedOk(c, hkdf, config, boot, half, rounds, |run.tries|, run.obtained.value)
            && AllAnswered(rounds, run.obtained.value, run.answers, EndOf(rounds, run)))
    && AnswersOk(rounds, run.obtained, run.answers)
    && EndingOk(c, hkdf, config, boot, half, earlier, rounds, run)
    && (StaysOpen(rounds, run.tries) ==> Spaced(Spans(run.tries)))
  }

  /** What the loop keeps at the start of round n. */
  datatype Log = Log(tries: seq<Try>, obtained: Option<Obtained>, answers: seq<Given>, now: int)

  ghost predicate Kept(c: Crypto, hkdf: Hkdf, config: Config, boot: Boot, half: bytes, rounds: seq<Round>, log: Log,
                       n: nat)
    requires IsConfig(config)
  {
    && TriesOk(c, config, boot, half, rounds, log.tries, |log.tries| - if log.obtained.Some? then 1 else 0)
    && (log.obtained.None? ==> |log.tries| == n && log.answers == [])
    && (log.obtained.Some?
        ==> && ObtainedOk(c, hkdf, config, boot, half, rounds, |log.tries|, log.obtained.value)
            && log.obtained.value.round <= n && AllAnswered(rounds, log.obtained.value, log.answers, n))
    && (StaysOpen(rounds, log.tries)
        ==> Spaced(Spans(log.tries)) && (log.obtained.None? ==> Due(rounds, log.tries, log.now)))
    && AnswersOk(rounds, log.obtained, log.answers) && (forall i | 0 <= i < |log.answers| :: log.answers[i].round < n)
    && ClosedUntil(rounds, n)
  }

  lemma Starts(c: Crypto, hkdf: Hkdf, config: Config, boot: Boot, half: bytes, rounds: seq<Round>, start: int)
    requires IsConfig(config)
    ensures Kept(c, hkdf, config, boot, half, rounds, Log([], None, [], start), 0)
    ensures RunOk(c, hkdf, config, boot, half, true, rounds, Run(EarlierSession, [], None, []))
  {
  }

  /** The attempt is the one made now, in round n, with the half as it was. */
  ghost predicate MadeNow(c: Crypto, config: Config, boot: Boot, half: bytes, rounds: seq<Round>, log: Log, n: nat,
                          t: Try)
    requires IsConfig(config) && n < |rounds|
  {
    && t.span.at == log.now <= t.span.end && t.half == half
    && HellosOk(c, config, boot, rounds[n], n, t.hellos)
  }

  lemma StaysOpenBefore(rounds: seq<Round>, tries: seq<Try>, t: Try)
    requires StaysOpen(rounds, tries + [t])
    ensures StaysOpen(rounds, tries)
  {
    assert forall i | 0 <= i < |tries| :: (tries + [t])[i] == tries[i];
  }

  /** An attempt, and what follows from how it went: a pause, the end, or the key. */
  lemma Tries(c: Crypto, hkdf: Hkdf, config: Config, boot: Boot, half: bytes, rounds: seq<Round>, log: Log, n: nat,
              t: Try)
    requires IsConfig(config) && Kept(c, hkdf, config, boot, half, rounds, log, n) && log.obtained.None?
    requires n < |rounds| && !rounds[n].open && MadeNow(c, config, boot, half, rounds, log, n, t)
    ensures var tries := log.tries + [t];
            && (StaysOpen(rounds, tries) ==> Spaced(Spans(tries)))
            && TriesOk(c, config, boot, half, rounds, tries, n)
            && (NoHelpFrom(c, config, boot, rounds[n], n, |config.peers|)
                ==> TriesOk(c, config, boot, half, rounds, tries, n + 1))
  {
    hide NoHelpFrom, Spaced, Spans, HellosOk;
    OneMoreTry(c, config, boot, half, rounds, log.tries, t);
    if StaysOpen(rounds, log.tries + [t]) {
      StaysOpenBefore(rounds, log.tries, t);
      OneMoreSpan(rounds, log.tries, t);
    }
  }

  lemma Waits(c: Crypto, hkdf: Hkdf, config: Config, boot: Boot, half: bytes, rounds: seq<Round>, log: Log, n: nat,
              t: Try, wait: int, slept: int)
    requires IsConfig(config) && Kept(c, hkdf, config, boot, half, rounds, log, n) && log.obtained.None?
    requires n < |rounds| && !rounds[n].open && MadeNow(c, config, boot, half, rounds, log, n, t)
    requires NoHelpFrom(c, config, boot, rounds[n], n, |config.peers|) && 5 * wait >= 4 * Base(n)
    requires slept == wait || (t.looked > 0 && rounds[n].looks(t.looked - 1))
    ensures Kept(c, hkdf, config, boot, half, rounds, Log(log.tries + [t], None, [], t.span.end + slept), n + 1)
  {
    hide NoHelpFrom, HellosOk, Base, TriesOk, Spaced, Spans, Due, StaysOpen;
    var tries := log.tries + [t];
    Tries(c, hkdf, config, boot, half, rounds, log, n, t);
    if StaysOpen(rounds, tries) { NextIsDue(rounds, tries, wait, slept); }
  }

  lemma Obtains(c: Crypto, hkdf: Hkdf, config: Config, boot: Boot, half: bytes, rounds: seq<Round>, log: Log, n: nat,
                t: Try, key: bytes, peer: nat)
    requires IsConfig(config) && Kept(c, hkdf, config, boot, half, rounds, log, n) && log.obtained.None?
    requires n < |rounds| && !rounds[n].open && MadeNow(c, config, boot, half, rounds, log, n, t)
    requires peer <= |config.peers| && NoHelpFrom(c, config, boot, rounds[n], n, peer)
    requires KeyOf(c, hkdf, config, boot, rounds[n], n, half, peer, key)
    ensures Kept(c, hkdf, config, boot, half, rounds,
                 Log(log.tries + [t], Some(Obtained(n, key, peer)), [], t.span.end), n)
  {
    hide NoHelpFrom, HellosOk, KeyOf, TriesOk, Spaced, Spans, Due, StaysOpen;
    Tries(c, hkdf, config, boot, half, rounds, log, n, t);
  }

  lemma Answers(c: Crypto, hkdf: Hkdf, config: Config, boot: Boot, half: bytes, rounds: seq<Round>, log: Log, n: nat)
    requires IsConfig(config) && Kept(c, hkdf, config, boot, half, rounds, log, n) && log.obtained.Some? && n < |rounds|
             && !rounds[n].open
    ensures (rounds[n].delivered && rounds[n].found.Some? ==> rounds[n].found.value in Paths(log.answers))
            ==> Kept(c, hkdf, config, boot, half, rounds, log, n + 1)
    ensures rounds[n].delivered && rounds[n].found.Some? && rounds[n].found.value !in Paths(log.answers)
            && |log.answers| < MAX_ANSWERS
            ==> var g := Given(n, rounds[n].found.value, log.obtained.value.key);
                && Kept(c, hkdf, config, boot, half, rounds, log.(answers := log.answers + [g]), n + 1)
                && Paths(log.answers + [g]) == Paths(log.answers) + {g.path}
  {
    hide NoHelpFrom, HellosOk, KeyOf, TriesOk, Spaced, Spans, Due, StaysOpen, Paths, AllAnswered;
    if rounds[n].delivered && rounds[n].found.Some? && rounds[n].found.value !in Paths(log.answers) {
      if |log.answers| < MAX_ANSWERS {
        var g := Given(n, rounds[n].found.value, log.obtained.value.key);
        OneMoreAnswer(rounds, log.obtained, log.answers, g);
        AnswersGrow(rounds, log.obtained.value, log.answers, g);
      }
    } else {
      NothingToAnswer(rounds, log.obtained.value, log.answers, n);
    }
  }

  lemma Ends(c: Crypto, hkdf: Hkdf, config: Config, boot: Boot, half: bytes, rounds: seq<Round>, log: Log, n: nat,
             ending: Ending)
    requires IsConfig(config) && Kept(c, hkdf, config, boot, half, rounds, log, n)
    requires || (ending == VolumeOpen(n) && n < |rounds| && rounds[n].open)
             || (ending.AttemptsSpent? && log.obtained.None? && n == config.attempts > 0 && n < |rounds|
                 && !rounds[n].open)
             || (ending == KeyRefused(n) && |log.answers| == MAX_ANSWERS && n < |rounds| && !rounds[n].open
                 && rounds[n].found.Some? && rounds[n].found.value !in Paths(log.answers))
             || (ending.StillRunning? && n == |rounds|)
    ensures RunOk(c, hkdf, config, boot, half, false, rounds, Run(ending, log.tries, log.obtained, log.answers))
  {
    hide NoHelpFrom, HellosOk, KeyOf, TriesOk, Spaced, Spans, Due, StaysOpen, AllAnswered, Paths, ObtainedOk;
  }

  lemma EndsTrying(c: Crypto, hkdf: Hkdf, config: Config, boot: Boot, half: bytes, rounds: seq<Round>, log: Log, n: nat,
                   t: Try, ending: Ending)
    requires IsConfig(config) && Kept(c, hkdf, config, boot, half, rounds, log, n) && log.obtained.None?
    requires n < |rounds| && !rounds[n].open && MadeNow(c, config, boot, half, rounds, log, n, t)
    requires || (ending.BadLocalHalf? && NoKeyFrom(c, hkdf, config, boot, rounds[n], n, half, ending.peer))
             || (ending.NoPath? && n == 0 && NothingToAsk(config)
                 && NoHelpFrom(c, config, boot, rounds[n], n, |config.peers|))
    ensures RunOk(c, hkdf, config, boot, half, false, rounds, Run(ending, log.tries + [t], None, log.answers))
  {
    hide NoHelpFrom, HellosOk, KeyOf, NoKeyFrom, NothingToAsk, TriesOk, Spaced, Spans, Due, StaysOpen;
    Tries(c, hkdf, config, boot, half, rounds, log, n, t);
  }

  class Unlocker {
    const config: Config
    const local: array<byte>
    const boot: Session
    var key: Option<bytes>
    var peer: bytes
    var slot: bytes

    constructor (config: Config, local: array<byte>, boot: Session)
      ensures this.config == config && this.local == local && this.boot == boot && key.None?
    {
      this.config, this.local, this.boot := config, local, boot;
      key, peer, slot := None, [], [];
    }

    /** What only served to obtain the response is dropped. */
    method Spent()
      modifies local, boot`key
      ensures forall i | 0 <= i < local.Length :: local[i] == 0
      ensures boot.key.None?
    {
      Wipe(local);
      boot.key := None;
    }

    /** One attempt at the peers: then the key is held and what it took is dropped, or there is a pause. */
    method Seek(c: Crypto, hkdf: Hkdf, step: nat, round: Round)
      returns (tried: Tried, hellos: seq<nat>, wait: int, slept: int, looked: nat)
      requires IsConfig(config) && key.None?
      modifies this, local, boot
      ensures tried.Nothing? <==> NothingToAsk(config)
      ensures HellosOk(c, config, old(boot.View()), round, step, hellos)
      ensures tried.Nothing? || tried.NoHelp?
              ==> SameSession(boot.View(), old(boot.View()))
                  && NoHelpFrom(c, config, old(boot.View()), round, step, |config.peers|)
      ensures !tried.Helped? ==> key.None? && local[..] == old(local[..])
      ensures tried.BadHalf?
              ==> NoKeyFrom(c, hkdf, config, old(boot.View()), round, step, old(local[..]), tried.peer)
      ensures tried.Helped?
              ==> && key == Some(tried.key) && boot.key.None? && (forall i | 0 <= i < local.Length :: local[i] == 0)
                  && tried.peer < |config.peers| && peer == config.peers[tried.peer].nodeId && slot == tried.slot
                  && NoHelpFrom(c, config, old(boot.View()), round, step, tried.peer)
                  && KeyOf(c, hkdf, config, old(boot.View()), round, step, old(local[..]), tried.peer, tried.key)
      ensures tried.NoHelp? ==> 5 * wait >= 4 * Base(step) && (slept == wait || (looked > 0 && round.looks(looked - 1)))
    {
      hide NoHelpFrom, HellosOk, Base, NothingToAsk, Outcome, NoKeyOf;
      wait, slept, looked := 0, 0, 0;
      tried, hellos := Attempt(c, hkdf, config, step, round, local, boot);
      if tried.NoHelp? {
        wait := Backoff(step, round.jitter);
        var open;
        open, slept, looked := Pause(wait, round.looks);
      } else if tried.Helped? {
        key, peer, slot := Some(tried.key), config.peers[tried.peer].nodeId, tried.slot;
        hide KeyOf;
        Spent();
      }
    }

    /** The loop: open, or seek the key, or answer. */
    method Agent(c: Crypto, hkdf: Hkdf, earlier: bool, rounds: seq<Round>, start: int) returns (run: Run)
      requires IsConfig(config) && key.None? && !boot.consumed
      modifies this, local, boot
      ensures RunOk(c, hkdf, config, old(boot.View()), old(local[..]), earlier, rounds, run)
      ensures run.obtained.Some? ==> boot.key.None? && forall i | 0 <= i < local.Length :: local[i] == 0
      ensures run.obtained.None? ==> local[..] == old(local[..])
    {
      hide RunOk, Kept, NoHelpFrom, KeyOf, NoKeyOf, Outcome, Base, NothingToAsk, Paths, HellosOk;
      ghost var before, half := boot.View(), local[..];
      Starts(c, hkdf, config, before, half, rounds, start);
      if earlier { return Run(EarlierSession, [], None, []); }
      var log := Log([], None, [], start);
      var answered: set<string> := {};
      var step, n := 0, 0;
      assert Paths([]) == {} by { NoPaths(); }
      while n < |rounds|
        invariant n <= |rounds| && Kept(c, hkdf, config, before, half, rounds, log, n)
        invariant key == if log.obtained.Some? then Some(log.obtained.value.key) else None
        invariant log.obtained.None?
                  ==> local[..] == half && SameSession(boot.View(), before) && n == step && log.answers == []
        invariant log.obtained.Some? ==> boot.key.None? && forall i | 0 <= i < local.Length :: local[i] == 0
        invariant answered == Paths(log.answers) && |answered| == |log.answers| <= MAX_ANSWERS
        invariant config.attempts > 0 ==> step <= config.attempts
        invariant n > 0 || log.obtained.Some? ==> !NothingToAsk(config)
      {
        var round := rounds[n];
        if round.open {
          Ends(c, hkdf, config, before, half, rounds, log, n, VolumeOpen(n));
          return Run(VolumeOpen(n), log.tries, log.obtained, log.answers);
        }
        if key.None? {
          if config.attempts > 0 && step >= config.attempts {
            Ends(c, hkdf, config, before, half, rounds, log, n, AttemptsSpent);
            return Run(AttemptsSpent, log.tries, log.obtained, log.answers);
          }
          var used := local[..];
          ghost var view := boot.View();
          var tried, hellos, wait, slept, looked := Seek(c, hkdf, step, round);
          var t := Try(Span(log.now, log.now + round.took), used, hellos, looked);
          var tries := log.tries + [t];
          SameHelp(c, hkdf, config, view, before, round, step, half);
          SameHellos(c, config, view, before, round, step, hellos);
          if tried.Nothing? {
            EndsTrying(c, hkdf, config, before, half, rounds, log, n, t, NoPath);
            return Run(NoPath, tries, log.obtained, log.answers);
          }
          if tried.BadHalf? {
            EndsTrying(c, hkdf, config, before, half, rounds, log, n, t, BadLocalHalf(tried.peer));
            return Run(BadLocalHalf(tried.peer), tries, log.obtained, log.answers);
          }
          if tried.NoHelp? {
            Waits(c, hkdf, config, before, half, rounds, log, n, t, wait, slept);
            log := Log(tries, None, [], log.now + round.took + slept);
            step, n := step + 1, n + 1;
            continue;
          }
          Obtains(c, hkdf, config, before, half, rounds, log, n, t, tried.key, tried.peer);
          log := Log(tries, Some(Obtained(n, tried.key, tried.peer)), [], log.now + round.took);
        }
        Answers(c, hkdf, config, before, half, rounds, log, n);
        if round.found.Some? && round.found.value !in answered {
          if |answered| >= MAX_ANSWERS {
            Ends(c, hkdf, config, before, half, rounds, log, n, KeyRefused(n));
            return Run(KeyRefused(n), log.tries, log.obtained, log.answers);
          }
          if round.delivered {
            answered := answered + {round.found.value};
            log := log.(answers := log.answers + [Given(n, round.found.value, key.value)]);
          }
        }
        n := n + 1;
      }
      Ends(c, hkdf, config, before, half, rounds, log, n, StillRunning);
      run := Run(StillRunning, log.tries, log.obtained, log.answers);
    }
  }
}
