/** The two-message handshake over a network that may drop, delay, repeat, reorder and alter
    anything.  Primitives are parameters; the only assumptions are that Diffie-Hellman commutes
    and that a signature which verifies was made by the server. */
module KeyAgreement {
  import opened Frames

  datatype Pair = Pair(first: nat, second: nat)

  /** What the server signs: both ephemeral keys and both nonces. */
  datatype Blob = Blob(sPub: nat, sNonce: nat, cPub: nat, cNonce: nat)

  /** The primitives: public key of a secret, scalar multiplication (which can fail), the
      derivation of two keys and of the session id, and signature verification. */
  datatype Crypto = Crypto(pub: nat -> nat, dh: (nat, nat) -> Option<nat>, derive: (Pair, Pair) -> Pair,
                           id: (Pair, Blob) -> SessionId, verify: (nat, Blob) -> bool)

  ghost predicate Commutes(c: Crypto)
  {
    forall a, b :: c.dh(a, c.pub(b)) == c.dh(b, c.pub(a))
  }

  /** `client_handshake` after the signature check: the first derived key sends. */
  function ClientKeys(c: Crypto, cPriv: nat, serverPub: nat, b: Blob): Option<Keys>
  {
    var dh1, dh2 := c.dh(cPriv, b.sPub), c.dh(cPriv, serverPub);
    if dh1.None? || dh2.None? then None
    else
      var shared := Pair(dh1.value, dh2.value);
      var k := c.derive(shared, Pair(b.cNonce, b.sNonce));
      Some(Keys(c.id(shared, b), k.second, k.first))
  }

  /** `handle_msg1` and `handle_rehandshake_msg1`: the first derived key receives. */
  function ServerKeys(c: Crypto, sPriv: nat, serverSk: nat, b: Blob): Option<Keys>
  {
    var dh1, dh2 := c.dh(sPriv, b.cPub), c.dh(serverSk, b.cPub);
    if dh1.None? || dh2.None? then None
    else
      var shared := Pair(dh1.value, dh2.value);
      var k := c.derive(shared, Pair(b.cNonce, b.sNonce));
      Some(Keys(c.id(shared, b), k.first, k.second))
  }

  /** One session's two ends. */
  ghost predicate Mirror(client: Keys, server: Keys)
  {
    client.sid == server.sid && client.kSend == server.kRecv && client.kRecv == server.kSend
  }

  /** From the same blob both ends derive, or fail to derive, mirrored keys. */
  lemma KeysMirror(c: Crypto, cPriv: nat, sPriv: nat, serverSk: nat, b: Blob)
    requires Commutes(c) && b.cPub == c.pub(cPriv) && b.sPub == c.pub(sPriv)
    ensures var client, server := ClientKeys(c, cPriv, c.pub(serverSk), b), ServerKeys(c, sPriv, serverSk, b);
            client.Some? == server.Some? && (client.Some? ==> Mirror(client.value, server.value))
  {
    assert c.dh(cPriv, c.pub(sPriv)) == c.dh(sPriv, c.pub(cPriv));
    assert c.dh(cPriv, c.pub(serverSk)) == c.dh(serverSk, c.pub(cPriv));
  }

  // ---------- The network ----------

  /** A client's attempt: its ephemeral secret and nonce, and the outcome of a MSG2 it accepted. */
  datatype ClientRun = ClientRun(cPriv: nat, cNonce: nat, accepted: Option<(Blob, Keys)>)

  /** The server installed these keys in answer to the MSG1 inside the blob. */
  datatype Install = Install(sPriv: nat, blob: Blob, keys: Keys)

  /** The server signed this blob, its ephemeral secret being sPriv. */
  datatype Signing = Signing(sPriv: nat, blob: Blob)

  /** Attempts, installs, and signatures made so far. */
  datatype World = World(clients: seq<ClientRun>, installs: seq<Install>, signings: seq<Signing>)

  datatype Action =
    | Start(cPriv: nat, cNonce: nat)
    | Serve(cPub: nat, cNonce: nat, sPriv: nat, sNonce: nat, early: bool)
    | Receive(who: nat, sPub: nat, sNonce: nat, sig: nat)

  /** The server's handlers: DH must succeed before keys are installed.  `handle_msg1` signs
      early, before DH, and has then signed even if DH fails; `handle_rehandshake_msg1` signs
      after it.  Whether MSG2 is then sent does not matter. */
  function ServeStep(c: Crypto, serverSk: nat, w: World, a: Action): World
    requires a.Serve?
  {
    var b := Blob(c.pub(a.sPriv), a.sNonce, a.cPub, a.cNonce);
    var signed := w.signings + [Signing(a.sPriv, b)];
    match ServerKeys(c, a.sPriv, serverSk, b)
    case None => if a.early then w.(signings := signed) else w
    case Some(keys) => World(w.clients, w.installs + [Install(a.sPriv, b, keys)], signed)
  }

  /** The client's handling of a message that looks like MSG2. */
  function ReceiveStep(c: Crypto, serverSk: nat, w: World, a: Action): World
    requires a.Receive?
  {
    if a.who >= |w.clients| || w.clients[a.who].accepted.Some? then w
    else
      var run := w.clients[a.who];
      var b := Blob(a.sPub, a.sNonce, c.pub(run.cPriv), run.cNonce);
      if !c.verify(a.sig, b) then w
      else
        match ClientKeys(c, run.cPriv, c.pub(serverSk), b)
        case None => w
        case Some(keys) => w.(clients := w.clients[a.who := run.(accepted := Some((b, keys)))])
  }

  function Step(c: Crypto, serverSk: nat, w: World, a: Action): World
  {
    match a
    case Start(cPriv, cNonce) => w.(clients := w.clients + [ClientRun(cPriv, cNonce, None)])
    case Serve(_, _, _, _, _) => ServeStep(c, serverSk, w, a)
    case Receive(_, _, _, _) => ReceiveStep(c, serverSk, w, a)
  }

  ghost predicate Signed(signings: seq<Signing>, b: Blob)
  {
    exists n :: 0 <= n < |signings| && signings[n].blob == b
  }

  /** Unforgeability: a signature that verifies on a blob is one the server made. */
  ghost predicate Genuine(c: Crypto, w: World, a: Action)
  {
    a.Receive? ==> forall b :: c.verify(a.sig, b) ==> Signed(w.signings, b)
  }

  function Run(c: Crypto, serverSk: nat, actions: seq<Action>): World
  {
    if actions == [] then World([], [], [])
    else Step(c, serverSk, Run(c, serverSk, actions[..|actions| - 1]), actions[|actions| - 1])
  }

  ghost predicate AllGenuine(c: Crypto, serverSk: nat, actions: seq<Action>)
  {
    actions == [] ||
    (AllGenuine(c, serverSk, actions[..|actions| - 1]) &&
     Genuine(c, Run(c, serverSk, actions[..|actions| - 1]), actions[|actions| - 1]))
  }

  // ---------- Correspondence ----------

  ghost predicate InstallOk(c: Crypto, serverSk: nat, i: Install)
  {
    i.blob.sPub == c.pub(i.sPriv) && ServerKeys(c, i.sPriv, serverSk, i.blob) == Some(i.keys)
  }

  ghost predicate HasInstall(installs: seq<Install>, b: Blob)
  {
    exists n :: 0 <= n < |installs| && installs[n].blob == b
  }

  /** Some server step for that very MSG1 installed the mirrored keys. */
  ghost predicate Answered(c: Crypto, installs: seq<Install>, run: ClientRun)
  {
    run.accepted.Some? ==>
      run.accepted.value.0.cPub == c.pub(run.cPriv) && run.accepted.value.0.cNonce == run.cNonce &&
      exists n :: 0 <= n < |installs| && installs[n].blob == run.accepted.value.0 && Mirror(run.accepted.value.1, installs[n].keys)
  }

  /** Behind every signature is an ephemeral key, and an install unless DH failed. */
  ghost predicate SigningOk(c: Crypto, serverSk: nat, installs: seq<Install>, g: Signing)
  {
    g.blob.sPub == c.pub(g.sPriv) && (ServerKeys(c, g.sPriv, serverSk, g.blob).Some? ==> HasInstall(installs, g.blob))
  }

  ghost predicate Invariant(c: Crypto, serverSk: nat, w: World)
  {
    && (forall n :: 0 <= n < |w.installs| ==> InstallOk(c, serverSk, w.installs[n]))
    && (forall n :: 0 <= n < |w.signings| ==> SigningOk(c, serverSk, w.installs, w.signings[n]))
    && (forall i :: 0 <= i < |w.clients| ==> Answered(c, w.installs, w.clients[i]))
  }

  lemma MoreInstalls(c: Crypto, installs: seq<Install>, i: Install, run: ClientRun)
    requires Answered(c, installs, run)
    ensures Answered(c, installs + [i], run)
  {
    if run.accepted.Some? {
      var n :| 0 <= n < |installs| && installs[n].blob == run.accepted.value.0 && Mirror(run.accepted.value.1, installs[n].keys);
      assert (installs + [i])[n] == installs[n];
    }
  }

  lemma ServeOk(c: Crypto, serverSk: nat, w: World, a: Action)
    requires a.Serve? && Invariant(c, serverSk, w)
    ensures Invariant(c, serverSk, ServeStep(c, serverSk, w, a))
  {
    var b := Blob(c.pub(a.sPriv), a.sNonce, a.cPub, a.cNonce);
    var keys := ServerKeys(c, a.sPriv, serverSk, b);
    if keys.Some? {
      var i := Install(a.sPriv, b, keys.value);
      var installs := w.installs + [i];
      assert installs[|w.installs|] == i;
      forall e | HasInstall(w.installs, e)
        ensures HasInstall(installs, e)
      {
        var n :| 0 <= n < |w.installs| && w.installs[n].blob == e;
        assert installs[n].blob == e;
      }
      forall k | 0 <= k < |w.clients|
        ensures Answered(c, installs, w.clients[k])
      {
        MoreInstalls(c, w.installs, i, w.clients[k]);
      }
    }
  }

  /** A client that derives keys from a signed blob has a server end: had the server's DH
      failed, its own would have failed too. */
  lemma ReceiveOk(c: Crypto, serverSk: nat, w: World, a: Action)
    requires a.Receive? && Commutes(c) && Invariant(c, serverSk, w) && Genuine(c, w, a)
    ensures Invariant(c, serverSk, ReceiveStep(c, serverSk, w, a))
  {
    if a.who < |w.clients| && w.clients[a.who].accepted.None? {
      var run := w.clients[a.who];
      var b := Blob(a.sPub, a.sNonce, c.pub(run.cPriv), run.cNonce);
      if c.verify(a.sig, b) && ClientKeys(c, run.cPriv, c.pub(serverSk), b).Some? {
        assert Signed(w.signings, b);
        var m :| 0 <= m < |w.signings| && w.signings[m].blob == b;
        KeysMirror(c, run.cPriv, w.signings[m].sPriv, serverSk, b);
        var n :| 0 <= n < |w.installs| && w.installs[n].blob == b;
        KeysMirror(c, run.cPriv, w.installs[n].sPriv, serverSk, b);
      }
    }
  }

  lemma {:induction false} RunOk(c: Crypto, serverSk: nat, actions: seq<Action>)
    requires Commutes(c) && AllGenuine(c, serverSk, actions)
    ensures Invariant(c, serverSk, Run(c, serverSk, actions))
  {
    if actions != [] {
      var n := |actions| - 1;
      var w := Run(c, serverSk, actions[..n]);
      RunOk(c, serverSk, actions[..n]);
      match actions[n] {
        case Start(_, _) =>
        case Serve(_, _, _, _, _) => ServeOk(c, serverSk, w, actions[n]);
        case Receive(_, _, _, _) => ReceiveOk(c, serverSk, w, actions[n]);
      }
    }
  }

  /** Correspondence: in every run, whenever a client has accepted a MSG2, the server had
      answered that very MSG1 and installed the same session id with the keys mirrored. */
  lemma Correspondence(c: Crypto, serverSk: nat, actions: seq<Action>, who: nat)
    requires Commutes(c) && AllGenuine(c, serverSk, actions) && who < |Run(c, serverSk, actions).clients|
    ensures Answered(c, Run(c, serverSk, actions).installs, Run(c, serverSk, actions).clients[who])
  {
    RunOk(c, serverSk, actions);
  }

  // ---------- Completeness ----------

  /** A client that has not accepted yet accepts a MSG2 exactly when its signature verifies and
      its own Diffie-Hellman succeeds both times; it then holds the derived session id, sends
      with the first derived key and receives with the second.  Nothing else changes. */
  lemma AcceptsIff(c: Crypto, serverSk: nat, w: World, who: nat, sPub: nat, sNonce: nat, sig: nat)
    requires who < |w.clients| && w.clients[who].accepted.None?
    ensures var run := w.clients[who];
            var b := Blob(sPub, sNonce, c.pub(run.cPriv), run.cNonce);
            var dh1, dh2 := c.dh(run.cPriv, sPub), c.dh(run.cPriv, c.pub(serverSk));
            var r := Step(c, serverSk, w, Receive(who, sPub, sNonce, sig));
            r.installs == w.installs && r.signings == w.signings && |r.clients| == |w.clients| &&
            (forall k :: 0 <= k < |w.clients| && k != who ==> r.clients[k] == w.clients[k]) &&
            r.clients[who].cPriv == run.cPriv && r.clients[who].cNonce == run.cNonce &&
            if c.verify(sig, b) && dh1.Some? && dh2.Some? then
              var shared := Pair(dh1.value, dh2.value);
              var k := c.derive(shared, Pair(run.cNonce, sNonce));
              r.clients[who].accepted.Some? && r.clients[who].accepted.value.0 == b &&
              var keys := r.clients[who].accepted.value.1;
              keys.sid == c.id(shared, b) && keys.kSend == k.first && keys.kRecv == k.second
            else r.clients[who].accepted.None?
  {
  }

  /** What the server's handlers do with a MSG1: keys are installed exactly when both its
      Diffie-Hellman steps succeed, and a signature is made then, or before them. */
  lemma ServesIff(c: Crypto, serverSk: nat, w: World, cPub: nat, cNonce: nat, sPriv: nat, sNonce: nat, early: bool)
    ensures var b := Blob(c.pub(sPriv), sNonce, cPub, cNonce);
            var dh1, dh2 := c.dh(sPriv, cPub), c.dh(serverSk, cPub);
            var r := Step(c, serverSk, w, Serve(cPub, cNonce, sPriv, sNonce, early));
            r.clients == w.clients &&
            (if (dh1.Some? && dh2.Some?) || early then r.signings == w.signings + [Signing(sPriv, b)] else r.signings == w.signings) &&
            if dh1.Some? && dh2.Some? then
              var k := c.derive(Pair(dh1.value, dh2.value), Pair(cNonce, sNonce));
              r.installs == w.installs + [Install(sPriv, b, Keys(c.id(Pair(dh1.value, dh2.value), b), k.first, k.second))]
            else r.installs == w.installs
  {
  }

  /** Completeness: after any run, a client that starts, is served and gets that answer back
      undamaged accepts it, holding the mirror image of the keys the server installed for it,
      if and only if Diffie-Hellman succeeds at its end. */
  lemma {:induction false} Completes(c: Crypto, serverSk: nat, actions: seq<Action>, cPriv: nat, cNonce: nat, sPriv: nat, sNonce: nat,
                                     early: bool, sig: nat)
    requires Commutes(c) && c.verify(sig, Blob(c.pub(sPriv), sNonce, c.pub(cPriv), cNonce))
    ensures var who := |Run(c, serverSk, actions).clients|;
            var more := [Start(cPriv, cNonce), Serve(c.pub(cPriv), cNonce, sPriv, sNonce, early), Receive(who, c.pub(sPriv), sNonce, sig)];
            var w := Run(c, serverSk, actions + more);
            |w.clients| == who + 1 &&
            (w.clients[who].accepted.Some? <==> c.dh(cPriv, c.pub(sPriv)).Some? && c.dh(cPriv, c.pub(serverSk)).Some?) &&
            (w.clients[who].accepted.Some? ==>
               w.installs != [] && w.installs[|w.installs| - 1].blob == w.clients[who].accepted.value.0 &&
               Mirror(w.clients[who].accepted.value.1, w.installs[|w.installs| - 1].keys))
  {
    var before := Run(c, serverSk, actions);
    var who := |before.clients|;
    var x, y, z := Start(cPriv, cNonce), Serve(c.pub(cPriv), cNonce, sPriv, sNonce, early), Receive(who, c.pub(sPriv), sNonce, sig);
    assert actions + [x, y, z] == actions + [x] + [y] + [z];
    RunAppend(c, serverSk, actions, x);
    RunAppend(c, serverSk, actions + [x], y);
    RunAppend(c, serverSk, actions + [x] + [y], z);
    var u := Run(c, serverSk, actions + [x]);
    ServesIff(c, serverSk, u, c.pub(cPriv), cNonce, sPriv, sNonce, early);
    AcceptsIff(c, serverSk, Step(c, serverSk, u, y), who, c.pub(sPriv), sNonce, sig);
    KeysMirror(c, cPriv, sPriv, serverSk, Blob(c.pub(sPriv), sNonce, c.pub(cPriv), cNonce));
  }

  lemma RunAppend(c: Crypto, serverSk: nat, actions: seq<Action>, x: Action)
    ensures Run(c, serverSk, actions + [x]) == Step(c, serverSk, Run(c, serverSk, actions), x)
  {
    assert (actions + [x])[..|actions|] == actions;
  }
}
