/** What the agent comes to: it holds a key soon after a peer can help, whatever the other peers do, and never asks
    faster than the peers allow. */
module UnlockLiveness {
  import opened Arithmetic
  import opened Octets
  import opened UnlockWire
  import opened UnlockSession
  import opened UnlockGuarantees
  import opened UnlockCadence
  import opened UnlockAgent

  /** Any n attempts in a row, from any attempt on, come to each of a peer's n paths exactly once. */
  lemma {:induction false} EachPathOnce(n: nat, k: nat, q: nat) returns (i: nat)
    requires q < n
    ensures k <= i < k + n && i % n == q && forall j | k <= j < k + n && j % n == q :: j == i
    decreases k
  {
    if k == 0 {
      i := q;
      Division(q, n, 0, q);
      forall j | 0 <= j < n && j % n == q ensures j == i { Division(j, n, 0, j); }
    } else {
      i := EachPathOnce(n, k - 1, q);
      Division(k - 1 + n, n, (k - 1) / n + 1, (k - 1) % n);
      if i == k - 1 { i := k - 1 + n; }
    }
  }

  /** The peer's own helper: it answers validly, for its path q, in every attempt from k on that comes to that path. */
  ghost predicate HelpsFrom(c: Crypto, config: Config, boot: Boot, rounds: seq<Round>, peer: nat, q: nat, k: nat)
    requires IsConfig(config) && peer < |config.peers| && q < |Tokens(config, peer)|
  {
    forall i | k <= i < |rounds| && i % |Tokens(config, peer)| == q ::
        Outcome(c, boot, ExchangeOf(config, rounds[i], i, peer)).Some?
  }

  lemma HelpIsHelp(c: Crypto, config: Config, boot: Boot, round: Round, step: nat, peer: nat)
    requires IsConfig(config) && peer < |config.peers| && Tokens(config, peer) != []
    requires Outcome(c, boot, ExchangeOf(config, round, step, peer)).Some?
    ensures !NoHelpFrom(c, config, boot, round, step, |config.peers|)
  {
    hide Outcome, ExchangeOf;
  }

  /** The derivation gives something for two halves of 32 bytes, as HKDF does. */
  ghost predicate Derives(hkdf: Hkdf) { forall ikm, info | |ikm| == 2 * SECRET_BYTES :: hkdf(ikm, info).Some? }

  lemma DerivedIsAKey(c: Crypto, hkdf: Hkdf, config: Config, boot: Boot, round: Round, step: nat, half: bytes,
                      peer: nat)
    requires IsConfig(config) && Derives(hkdf) && |half| == SECRET_BYTES
    ensures !NoKeyOf(c, hkdf, config, boot, round, step, half, peer)
  {
    hide Outcome, Genuine;
    if peer < |config.peers| && Tokens(config, peer) != [] {
      var x := ExchangeOf(config, round, step, peer);
      if Outcome(c, boot, x).Some? { AcceptedIsGenuine(c, boot, x); }
    }
  }

  /** A round in which a peer helps is no failed attempt. */
  lemma HelpEndsTheTries(c: Crypto, config: Config, boot: Boot, half: bytes, rounds: seq<Round>, tries: seq<Try>,
                         failed: int, peer: nat, q: nat, k: nat, i: nat)
    requires IsConfig(config) && peer < |config.peers| && q < |Tokens(config, peer)|
    requires TriesOk(c, config, boot, half, rounds, tries, failed)
    requires HelpsFrom(c, config, boot, rounds, peer, q, k) && k <= i && i % |Tokens(config, peer)| == q
    ensures failed <= i
  {
    hide Outcome, ExchangeOf, HellosOk, NoHelpFrom;
    if i < |rounds| { HelpIsHelp(c, config, boot, rounds[i], i, peer); }
  }

  lemma NoBadHalf(c: Crypto, hkdf: Hkdf, config: Config, boot: Boot, half: bytes, earlier: bool, rounds: seq<Round>,
                  run: Run)
    requires IsConfig(config) && Derives(hkdf) && |half| == SECRET_BYTES
    requires EndingOk(c, hkdf, config, boot, half, earlier, rounds, run)
    ensures !run.ending.BadLocalHalf?
  {
    hide NoKeyOf, NoHelpFrom, NothingToAsk, Derives, ClosedUntil, Paths;
    if run.ending.BadLocalHalf? {
      var last := |run.tries| - 1;
      DerivedIsAKey(c, hkdf, config, boot, rounds[last], last, half, run.ending.peer);
    }
  }

  /** If a peer helps by one of its n paths from attempt k on, there is no attempt after k + n - 1. If then the rounds
      last that long, the local half has its size, the derivation works and no other client had begun, there is a key
      by then, unless the volume was open in a round before that or fewer attempts were allowed. */
  lemma HoldsAKeyInTime(c: Crypto, hkdf: Hkdf, config: Config, boot: Boot, half: bytes, earlier: bool,
                        rounds: seq<Round>, run: Run, peer: nat, q: nat, k: nat)
    requires IsConfig(config) && peer < |config.peers| && q < |Tokens(config, peer)|
    requires RunOk(c, hkdf, config, boot, half, earlier, rounds, run)
             && HelpsFrom(c, config, boot, rounds, peer, q, k)
    ensures var n := |Tokens(config, peer)|;
            && |run.tries| <= k + n
            && (|rounds| >= k + n && |half| == SECRET_BYTES && Derives(hkdf) && !earlier
                ==> || (run.obtained.Some? && run.obtained.value.round < k + n)
                    || (run.ending.VolumeOpen? && run.ending.round < k + n)
                    || (run.ending.AttemptsSpent? && 0 < config.attempts < k + n))
  {
    var n, tries := |Tokens(config, peer)|, |run.tries|;
    var i := EachPathOnce(n, k, q);
    assert Tokens(config, peer) != [] && !NothingToAsk(config);
    HelpEndsTheTries(c, config, boot, half, rounds, run.tries,
                     tries - if run.obtained.Some? || run.ending.BadLocalHalf? then 1 else 0, peer, q, k, i);
    hide HelpsFrom, TriesOk, AnswersOk, Spaced, Spans, StaysOpen, KeyOf, AllAnswered, ClosedUntil, Derives, Paths,
      NothingToAsk, NoHelpFrom, NoKeyFrom, Tokens;
    if |half| == SECRET_BYTES && Derives(hkdf) {
      NoBadHalf(c, hkdf, config, boot, half, earlier, rounds, run);
    }
  }

  /** So while the volume stays closed the request for it is given the key: any that is there and can be reached in
      round k + n - 1 or later, unless five others had the key before it. */
  lemma RequestIsAnswered(c: Crypto, hkdf: Hkdf, config: Config, boot: Boot, half: bytes, rounds: seq<Round>, run: Run,
                          peer: nat, q: nat, k: nat, m: nat)
    requires IsConfig(config) && peer < |config.peers| && q < |Tokens(config, peer)|
    requires RunOk(c, hkdf, config, boot, half, false, rounds, run) && HelpsFrom(c, config, boot, rounds, peer, q, k)
    requires |half| == SECRET_BYTES && Derives(hkdf)
    requires var n := |Tokens(config, peer)|;
             k + n - 1 <= m < |rounds| && (config.attempts == 0 || k + n <= config.attempts)
    requires ClosedUntil(rounds, m + 1) && rounds[m].delivered && rounds[m].found.Some?
    ensures || AnsweredBy(run.answers, m, rounds[m].found.value)
            || (run.ending.KeyRefused? && run.ending.round <= m && |run.answers| == 5)
  {
    HoldsAKeyInTime(c, hkdf, config, boot, half, false, rounds, run, peer, q, k);
    hide HelpsFrom, TriesOk, AnswersOk, Spaced, Spans, StaysOpen, KeyOf, NoKeyOf, NoHelpFrom, NothingToAsk, Derives,
      Paths, AnsweredBy;
  }

  /** What a helper is: the peer the pin names, holding its half for this node and path, reachable, and admitting the
      quotes the TPM makes for it. */
  lemma HonestPeerHelps(c: Crypto, p: Peer, config: Config, boot: Boot, rounds: seq<Round>, peer: nat, q: nat, k: nat,
                        contribution: bytes)
    requires IsConfig(config) && peer < |config.peers| && q < |Tokens(config, peer)| && !boot.consumed
    requires forall i | k <= i < |rounds| && i % |Tokens(config, peer)| == q ::
               rounds[i].ways(peer).send == Honest(c.hash, p)
                   && Admitted(c, p, boot, ExchangeOf(config, rounds[i], i, peer))
    ensures Serves(p, config.peers[peer], boot.nodeId, Tokens(config, peer)[q].pathEpoch, contribution)
            && Encrypts(c, p, boot) && Signs(c, p, config.peers[peer])
            ==> HelpsFrom(c, config, boot, rounds, peer, q, k)
  {
    hide Outcome, Signs, Encrypts, Serves, Honest, IsPin, Admitted;
    forall i | k <= i < |rounds| && i % |Tokens(config, peer)| == q
      ensures Serves(p, config.peers[peer], boot.nodeId, Tokens(config, peer)[q].pathEpoch, contribution)
              && Encrypts(c, p, boot) && Signs(c, p, config.peers[peer])
              ==> Outcome(c, boot, ExchangeOf(config, rounds[i], i, peer)).Some?
    {
      HonestIsOpened(c, p, boot, ExchangeOf(config, rounds[i], i, peer), contribution);
    }
  }

  /** When the hellos of each attempt reached one peer: as many as were sent, in order, while the attempt lasted. */
  ghost predicate Arrivals(tries: seq<Try>, peer: nat, hs: seq<seq<int>>) {
    && |hs| == |tries|
    && forall i | 0 <= i < |tries| ::
      && peer < |tries[i].hellos| && |hs[i]| == tries[i].hellos[peer]
      && (forall k | 0 <= k < |hs[i]| :: tries[i].span.at <= hs[i][k] <= tries[i].span.end)
      && (forall k | 0 < k < |hs[i]| :: hs[i][k - 1] <= hs[i][k])
  }

  /** The attempts of any agent whose volume stays open once open: at most six in any minute, and whatever each peer's
      hellos are, its bucket refuses none. */
  lemma AgentKeepsThePace(c: Crypto, hkdf: Hkdf, config: Config, boot: Boot, half: bytes, earlier: bool,
                          rounds: seq<Round>, run: Run, from: int, peer: nat, b: Bucket, hs: seq<seq<int>>)
    requires IsConfig(config) && RunOk(c, hkdf, config, boot, half, earlier, rounds, run)
             && StaysOpen(rounds, run.tries)
    requires Arrivals(run.tries, peer, hs) && b.level == FULL && (run.tries != [] ==> b.at <= run.tries[0].span.at)
    ensures |Within(Spans(run.tries), from)| <= 6
    ensures SpendAll(b, hs).Some?
  {
    hide AnswersOk, ObtainedOk, AllAnswered, EndingOk, NoHelpFrom, Spaced, StaysOpen, SpendAll, Within;
    MinuteHoldsAtMostSix(Spans(run.tries), from);
    assert forall i | 0 <= i < |run.tries| :: HellosOk(c, config, boot, rounds[i], i, run.tries[i].hellos);
    hide HellosTo;
    NoHelloIsRefused(b, Spans(run.tries), hs);
  }
}
