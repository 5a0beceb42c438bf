/**
 contracts/NeoDIDRegistry/NeoDIDRegistry.cs: identity bindings, single-use action tickets and the byte layouts
 that keep them apart. Texts are their octets, as the virtual machine measures them; null is None.
 */
module Registry {
  import opened Prelude
  import opened Bytes
  import Words

  type Octets = seq<byte>
  type Arg = Option<Octets>

  // ----- Layouts -----

  /** A text of at most 255 octets behind its length. */
  function EncodeSegment(text: Octets): (s: Octets)
    requires |text| <= 255
    ensures |s| == 1 + |text|
  {
    [|text|] + text
  }

  lemma SegmentSplit(a: Octets, x: Octets, b: Octets, y: Octets)
    requires |a| <= 255 && |b| <= 255
    requires EncodeSegment(a) + x == EncodeSegment(b) + y
    ensures a == b && x == y
  {
    assert (EncodeSegment(a) + x)[0] == |a| && (EncodeSegment(b) + y)[0] == |b|;
    SplitPrefix(EncodeSegment(a), x, EncodeSegment(b), y);
    SplitPrefix([|a|], a, [|b|], b);
  }

  predicate ValidAccount(a: Octets) {
    |a| == 20
  }

  function BindingKey(vault: Octets, provider: Octets, claimType: Octets): Octets
    requires |provider| <= 255 && |claimType| <= 255
  {
    vault + EncodeSegment(provider) + EncodeSegment(claimType)
  }

  /** No two vault, provider and claim type triples share a storage key. */
  lemma BindingKeyInjective(v: Octets, p: Octets, c: Octets, v': Octets, p': Octets, c': Octets)
    requires ValidAccount(v) && ValidAccount(v')
    requires |p| <= 255 && |c| <= 255 && |p'| <= 255 && |c'| <= 255
    requires BindingKey(v, p, c) == BindingKey(v', p', c')
    ensures v == v' && p == p' && c == c'
  {
    hide EncodeSegment;
    var tail, tail' := EncodeSegment(p) + EncodeSegment(c), EncodeSegment(p') + EncodeSegment(c');
    assert BindingKey(v, p, c) == v + tail && BindingKey(v', p', c') == v' + tail';
    SplitPrefix(v, tail, v', tail');
    SegmentSplit(p, EncodeSegment(c), p', EncodeSegment(c'));
    assert EncodeSegment(c) + [] == EncodeSegment(c) && EncodeSegment(c') + [] == EncodeSegment(c');
    SegmentSplit(c, [], c', []);
  }

  /** "neodid-binding-v1" and "neodid-action-v1". */
  const BINDING_DOMAIN: Octets := [110, 101, 111, 100, 105, 100, 45, 98, 105, 110, 100, 105, 110, 103, 45, 118, 49]
  const ACTION_DOMAIN: Octets := [110, 101, 111, 100, 105, 100, 45, 97, 99, 116, 105, 111, 110, 45, 118, 49]

  /** What ComputeBindingDigest hashes. */
  function BindingPreimage(vault: Octets, provider: Octets, claimType: Octets, claimValue: Octets,
                           master: Octets, metadata: Octets, network: nat): Octets
    requires |provider| <= 255 && |claimType| <= 255 && |claimValue| <= 255
  {
    BINDING_DOMAIN + Reversed(vault) + EncodeSegment(provider) + EncodeSegment(claimType) + EncodeSegment(claimValue)
    + master + metadata + Words.NetworkMagicLe4(network)
  }

  /** What ComputeActionDigest hashes. */
  function ActionPreimage(account: Octets, actionId: Octets, nullifier: Octets, network: nat): Octets
    requires |actionId| <= 255
  {
    ACTION_DOMAIN + Reversed(account) + EncodeSegment(actionId) + nullifier + Words.NetworkMagicLe4(network)
  }

  lemma BindingPreimageInjective(v: Octets, p: Octets, c: Octets, x: Octets, n: Octets, m: Octets, net: nat,
                                 v': Octets, p': Octets, c': Octets, x': Octets, n': Octets, m': Octets, net': nat)
    requires ValidAccount(v) && |p| <= 255 && |c| <= 255 && |x| <= 255 && |n| == |m| == 32
    requires ValidAccount(v') && |p'| <= 255 && |c'| <= 255 && |x'| <= 255 && |n'| == |m'| == 32
    requires BindingPreimage(v, p, c, x, n, m, net) == BindingPreimage(v', p', c', x', n', m', net')
    ensures (v, p, c, x, n, m) == (v', p', c', x', n', m')
    ensures net % 0x1_0000_0000 == net' % 0x1_0000_0000
  {
    hide EncodeSegment, Reversed;
    var D := BINDING_DOMAIN;
    var sp, sc, sx, k := EncodeSegment(p), EncodeSegment(c), EncodeSegment(x), Words.NetworkMagicLe4(net);
    var sp', sc', sx', k' := EncodeSegment(p'), EncodeSegment(c'), EncodeSegment(x'), Words.NetworkMagicLe4(net');
    Words.MagicsAgree(net);
    Words.MagicsAgree(net');
    SplitSuffix(D + Reversed(v) + sp + sc + sx + n + m, k, D + Reversed(v') + sp' + sc' + sx' + n' + m', k');
    SplitSuffix(D + Reversed(v) + sp + sc + sx + n, m, D + Reversed(v') + sp' + sc' + sx' + n', m');
    SplitSuffix(D + Reversed(v) + sp + sc + sx, n, D + Reversed(v') + sp' + sc' + sx', n');
    assert D + Reversed(v) + sp + sc + sx == D + (Reversed(v) + (sp + (sc + sx)));
    assert D + Reversed(v') + sp' + sc' + sx' == D + (Reversed(v') + (sp' + (sc' + sx')));
    SplitPrefix(D, Reversed(v) + (sp + (sc + sx)), D, Reversed(v') + (sp' + (sc' + sx')));
    SplitPrefix(Reversed(v), sp + (sc + sx), Reversed(v'), sp' + (sc' + sx'));
    ReversedInjective(v, v');
    SegmentSplit(p, sc + sx, p', sc' + sx');
    SegmentSplit(c, sx, c', sx');
    assert sx + [] == sx && sx' + [] == sx';
    SegmentSplit(x, [], x', []);
  }

  lemma ActionPreimageInjective(a: Octets, i: Octets, n: Octets, net: nat,
                                a': Octets, i': Octets, n': Octets, net': nat)
    requires ValidAccount(a) && |i| <= 255 && |n| == 32
    requires ValidAccount(a') && |i'| <= 255 && |n'| == 32
    requires ActionPreimage(a, i, n, net) == ActionPreimage(a', i', n', net')
    ensures (a, i, n) == (a', i', n')
    ensures net % 0x1_0000_0000 == net' % 0x1_0000_0000
  {
    hide EncodeSegment, Reversed;
    var D := ACTION_DOMAIN;
    var si, si' := EncodeSegment(i), EncodeSegment(i');
    Words.MagicsAgree(net);
    Words.MagicsAgree(net');
    SplitSuffix(D + Reversed(a) + si + n, Words.NetworkMagicLe4(net),
                D + Reversed(a') + si' + n', Words.NetworkMagicLe4(net'));
    SplitSuffix(D + Reversed(a) + si, n, D + Reversed(a') + si', n');
    assert D + Reversed(a) + si == D + (Reversed(a) + si) && D + Reversed(a') + si' == D + (Reversed(a') + si');
    SplitPrefix(D, Reversed(a) + si, D, Reversed(a') + si');
    SplitPrefix(Reversed(a), si, Reversed(a'), si');
    ReversedInjective(a, a');
    assert si + [] == si && si' + [] == si';
    SegmentSplit(i, [], i', []);
  }

  /** A signature over a binding never passes for one over an action ticket. */
  lemma DomainsAreApart(v: Octets, p: Octets, c: Octets, x: Octets, n: Octets, m: Octets, net: nat,
                        a: Octets, i: Octets, n': Octets, net': nat)
    requires |p| <= 255 && |c| <= 255 && |x| <= 255 && |i| <= 255
    ensures BindingPreimage(v, p, c, x, n, m, net) != ActionPreimage(a, i, n', net')
  {
    hide EncodeSegment, Reversed;
    assert BindingPreimage(v, p, c, x, n, m, net)[7] == 98;
    assert ActionPreimage(a, i, n', net')[7] == 97;
  }

  // ----- The signer's layouts (workers/nitro-worker/src/neodid/index.js) -----

  /** buildBindingDigestBytes up to its hash, for a vault given as displayed, most significant octet first. */
  function SignerBindingPreimage(display: Octets, provider: Octets, claimType: Octets, claimValue: Octets,
                                 master: Octets, metadata: Octets, network: nat): Octets
    requires |provider| <= 255 && |claimType| <= 255 && |claimValue| <= 255
  {
    Words.Concat([Words.Ascii("neodid-binding-v1"), display, EncodeSegment(provider), EncodeSegment(claimType),
                  EncodeSegment(claimValue), master, metadata, Words.NeoNetworkMagicLe4(network)])
  }

  /** buildActionDigestBytes up to its hash. */
  function SignerActionPreimage(display: Octets, actionId: Octets, nullifier: Octets, network: nat): Octets
    requires |actionId| <= 255
  {
    Words.Concat([Words.Ascii("neodid-action-v1"), display, EncodeSegment(actionId), nullifier,
                  Words.NeoNetworkMagicLe4(network)])
  }

  lemma ReversedTwice(s: Octets)
    ensures Reversed(Reversed(s)) == s
  {
    hide Reversed;
    assert forall i :: 0 <= i < |s| ==> Reversed(Reversed(s))[i] == s[i];
  }

  lemma Domains()
    ensures Words.Ascii("neodid-binding-v1") == BINDING_DOMAIN && Words.Ascii("neodid-action-v1") == ACTION_DOMAIN
  {
  }

  /** Contract and signer hash the same octets, for every binding and every ticket. */
  lemma SignerMatchesRegistry(display: Octets, p: Octets, c: Octets, x: Octets, n: Octets, m: Octets, network: nat)
    requires |p| <= 255 && |c| <= 255 && |x| <= 255
    ensures SignerBindingPreimage(display, p, c, x, n, m, network) ==
            BindingPreimage(Reversed(display), p, c, x, n, m, network)
    ensures SignerActionPreimage(display, p, n, network) == ActionPreimage(Reversed(display), p, n, network)
  {
    hide Reversed, EncodeSegment, Words.Ascii, Words.Concat, Words.NetworkMagicLe4, Words.NeoNetworkMagicLe4;
    ReversedTwice(display);
    Domains();
    Words.MagicsAgree(network);
    var sp, sc, sx, k := EncodeSegment(p), EncodeSegment(c), EncodeSegment(x), Words.NeoNetworkMagicLe4(network);
    var front, back := [Words.Ascii("neodid-binding-v1"), display, sp, sc, sx], [n, m, k];
    Words.ConcatFive(front);
    Words.ConcatThree(back);
    Words.ConcatAppend(front, back);
    assert front + back == [Words.Ascii("neodid-binding-v1"), display, sp, sc, sx, n, m, k];
    var f := BINDING_DOMAIN + display + sp + sc + sx;
    assert f + (n + m + k) == f + n + m + k;
    Words.ConcatFive([Words.Ascii("neodid-action-v1"), display, sp, n, k]);
  }

  // ----- State and calls -----

  datatype Record = Record(
    vault: Octets,
    provider: Octets,
    claimType: Octets,
    claimValue: Octets,
    master: Octets,
    metadata: Octets,
    createdAt: int,
    revokedAt: int,
    active: bool)

  datatype State = State(
    admin: Octets,
    verifier: Option<Octets>,
    bindings: map<Octets, Record>,
    masters: set<Octets>,
    actions: map<Octets, int>)

  datatype Call =
    | SetAdmin(newAdmin: Arg)
    | SetVerifier(key: Arg, keyIsValid: bool)
    | RegisterBinding(vault: Arg, provider: Arg, claimType: Arg, claimValue: Arg, master: Arg, metadata: Arg,
                      signature: Arg)
    | RevokeBinding(vault: Arg, provider: Arg, claimType: Arg)
    | UseActionTicket(account: Arg, actionId: Arg, nullifier: Arg, signature: Arg)

  /** What a transaction brings along; verifies stands for SHA-256 and ECDSA under a key. */
  datatype Env = Env(witnesses: set<Octets>, time: int, network: nat, verifies: (Octets, Octets, Octets) -> bool)

  predicate ValidHash160(a: Arg) {
    a.Some? && ValidAccount(a.value)
  }

  predicate ShortText(a: Arg, max: nat) {
    a.Some? && 0 < |a.value| <= max
  }

  predicate HasLength(a: Arg, n: nat) {
    a.Some? && |a.value| == n
  }

  predicate Owns(st: State, env: Env, account: Octets) {
    account in env.witnesses || st.admin in env.witnesses
  }

  predicate SignatureHolds(st: State, env: Env, preimage: Octets, signature: Octets) {
    st.verifier.Some? && env.verifies(st.verifier.value, preimage, signature)
  }

  function OrEmpty(a: Arg): Octets {
    if a.Some? then a.value else []
  }

  predicate IsActive(st: State, key: Octets) {
    key in st.bindings && st.bindings[key].active
  }

  predicate BindingArguments(call: Call)
    requires call.RegisterBinding?
  {
    && ValidHash160(call.vault) && ShortText(call.provider, 32) && ShortText(call.claimType, 64)
    && (call.claimValue.None? || |call.claimValue.value| <= 128)
    && HasLength(call.master, 32) && HasLength(call.metadata, 32) && HasLength(call.signature, 64)
  }

  predicate CanRegister(st: State, call: Call, env: Env)
    requires call.RegisterBinding?
  {
    && BindingArguments(call)
    && var (vault, provider, claimType) := (call.vault.value, call.provider.value, call.claimType.value);
    && Owns(st, env, vault)
    && call.master.value !in st.masters
    && !IsActive(st, BindingKey(vault, provider, claimType))
    && SignatureHolds(st, env,
         BindingPreimage(vault, provider, claimType, OrEmpty(call.claimValue), call.master.value, call.metadata.value,
                         env.network),
         call.signature.value)
  }

  predicate CanRevoke(st: State, call: Call, env: Env)
    requires call.RevokeBinding?
  {
    && ValidHash160(call.vault) && ShortText(call.provider, 32) && ShortText(call.claimType, 64)
    && Owns(st, env, call.vault.value)
    && IsActive(st, BindingKey(call.vault.value, call.provider.value, call.claimType.value))
  }

  predicate CanUse(st: State, call: Call, env: Env)
    requires call.UseActionTicket?
  {
    && ValidHash160(call.account) && ShortText(call.actionId, 128)
    && HasLength(call.nullifier, 32) && HasLength(call.signature, 64)
    && call.account.value in env.witnesses
    && call.nullifier.value !in st.actions
    && SignatureHolds(st, env,
         ActionPreimage(call.account.value, call.actionId.value, call.nullifier.value, env.network),
         call.signature.value)
  }

  predicate Accepts(st: State, call: Call, env: Env) {
    match call
    case SetAdmin(newAdmin) => st.admin in env.witnesses && ValidHash160(newAdmin)
    case SetVerifier(key, keyIsValid) => st.admin in env.witnesses && key.Some? && keyIsValid
    case RegisterBinding(_, _, _, _, _, _, _) => CanRegister(st, call, env)
    case RevokeBinding(_, _, _) => CanRevoke(st, call, env)
    case UseActionTicket(_, _, _, _) => CanUse(st, call, env)
  }

  /** A call that is not accepted aborts and leaves no trace. */
  function Step(st: State, call: Call, env: Env): State {
    if !Accepts(st, call, env) then st
    else
      match call
      case SetAdmin(newAdmin) => st.(admin := newAdmin.value)
      case SetVerifier(key, _) => st.(verifier := key)
      case RegisterBinding(vault, provider, claimType, claimValue, master, metadata, _) =>
        var record := Record(vault.value, provider.value, claimType.value, OrEmpty(claimValue),
                             master.value, metadata.value, env.time, 0, true);
        st.(bindings := st.bindings[BindingKey(vault.value, provider.value, claimType.value) := record],
            masters := st.masters + {master.value})
      case RevokeBinding(vault, provider, claimType) =>
        var key := BindingKey(vault.value, provider.value, claimType.value);
        st.(bindings := st.bindings[key := st.bindings[key].(active := false, revokedAt := env.time)])
      case UseActionTicket(_, _, nullifier, _) => st.(actions := st.actions[nullifier.value := env.time])
  }

  type Transaction = (Call, Env)

  function Run(st: State, txs: seq<Transaction>): State
    decreases txs
  {
    if txs == [] then st else Run(Step(st, txs[0].0, txs[0].1), txs[1..])
  }

  function Deployed(sender: Octets): State {
    State(sender, None, map[], {}, map[])
  }

  // ----- What every run keeps -----

  /** Each record is under its own key, its nullifier is consumed, and no two records share one. */
  predicate Inv(st: State) {
    && (forall key :: key in st.bindings ==>
          var r := st.bindings[key];
          && ValidAccount(r.vault) && |r.provider| <= 32 && |r.claimType| <= 64
          && key == BindingKey(r.vault, r.provider, r.claimType)
          && r.master in st.masters)
    && (forall k, l ::
          k in st.bindings && l in st.bindings && st.bindings[k].master == st.bindings[l].master ==> k == l)
  }

  lemma StepKeepsInv(st: State, call: Call, env: Env)
    requires Inv(st)
    ensures Inv(Step(st, call, env))
    ensures st.masters <= Step(st, call, env).masters && st.actions.Keys <= Step(st, call, env).actions.Keys
  {
    hide BindingKey, BindingPreimage, ActionPreimage;
  }

  lemma {:induction false} RunKeepsInv(st: State, txs: seq<Transaction>)
    requires Inv(st)
    ensures Inv(Run(st, txs))
    ensures st.masters <= Run(st, txs).masters && st.actions.Keys <= Run(st, txs).actions.Keys
    decreases txs
  {
    hide Inv, Step;
    if txs != [] {
      StepKeepsInv(st, txs[0].0, txs[0].1);
      RunKeepsInv(Step(st, txs[0].0, txs[0].1), txs[1..]);
    }
  }

  lemma {:induction false} RunSplit(st: State, txs: seq<Transaction>, i: nat)
    requires i < |txs|
    ensures Run(st, txs) == Run(Step(Run(st, txs[..i]), txs[i].0, txs[i].1), txs[i + 1..])
    decreases txs
  {
    hide Step;
    if i > 0 {
      RunSplit(Step(st, txs[0].0, txs[0].1), txs[1..], i - 1);
      assert txs[1..][..i - 1] == txs[..i][1..] && txs[1..][i..] == txs[i + 1..];
    }
  }

  predicate Succeeds(st: State, txs: seq<Transaction>, i: nat)
    requires i < |txs|
  {
    Accepts(Run(st, txs[..i]), txs[i].0, txs[i].1)
  }

  /** In a run from deployment at most one registration consumes a master nullifier, one ticket an action nullifier. */
  lemma NullifiersAreSingleUse(sender: Octets, txs: seq<Transaction>, i: nat, j: nat)
    requires i < j < |txs| && Succeeds(Deployed(sender), txs, i) && Succeeds(Deployed(sender), txs, j)
    ensures txs[i].0.RegisterBinding? && txs[j].0.RegisterBinding? ==> txs[i].0.master != txs[j].0.master
    ensures txs[i].0.UseActionTicket? && txs[j].0.UseActionTicket? ==> txs[i].0.nullifier != txs[j].0.nullifier
  {
    hide Run, BindingKey, BindingPreimage, ActionPreimage, SignatureHolds, Owns, Inv;
    var st := Deployed(sender);
    var before := Run(st, txs[..i]);
    var after := Step(before, txs[i].0, txs[i].1);
    DeployedInv(sender);
    RunKeepsInv(st, txs[..i]);
    StepKeepsInv(before, txs[i].0, txs[i].1);
    RunSplit(st, txs[..j], i);
    assert txs[..j][..i] == txs[..i] && txs[..j][i + 1..] == txs[i + 1..j];
    RunKeepsInv(after, txs[i + 1..j]);
    if txs[i].0.RegisterBinding? {
      assert txs[i].0.master.value in after.masters;
    }
    if txs[i].0.UseActionTicket? {
      assert txs[i].0.nullifier.value in after.actions.Keys;
    }
  }

  lemma DeployedInv(sender: Octets)
    ensures Inv(Deployed(sender))
  {
  }

  /** No two bindings share a master nullifier, revoked ones included, and looking one up finds its own fields. */
  lemma BindingsAreDistinct(sender: Octets, txs: seq<Transaction>, v: Octets, p: Octets, c: Octets,
                            v': Octets, p': Octets, c': Octets)
    requires ValidAccount(v) && ValidAccount(v') && |p| <= 255 && |c| <= 255 && |p'| <= 255 && |c'| <= 255
    requires var bindings := Run(Deployed(sender), txs).bindings;
             BindingKey(v, p, c) in bindings && BindingKey(v', p', c') in bindings
    ensures var bindings := Run(Deployed(sender), txs).bindings;
            var r, r' := bindings[BindingKey(v, p, c)], bindings[BindingKey(v', p', c')];
            && (r.vault, r.provider, r.claimType) == (v, p, c)
            && (r.master == r'.master ==> (v, p, c) == (v', p', c'))
  {
    hide Run, BindingKey;
    DeployedInv(sender);
    RunKeepsInv(Deployed(sender), txs);
    var bindings := Run(Deployed(sender), txs).bindings;
    var r, r' := bindings[BindingKey(v, p, c)], bindings[BindingKey(v', p', c')];
    BindingKeyInjective(v, p, c, r.vault, r.provider, r.claimType);
    BindingKeyInjective(v', p', c', r'.vault, r'.provider, r'.claimType);
  }

  // ----- What each accepted call leaves behind -----

  predicate Witnessed(env: Env, st: State, account: Octets) {
    account in env.witnesses || st.admin in env.witnesses
  }

  /** The admin and the verifier key are set by the admin, as the call says, and no binding or nullifier changes. */
  lemma SettingTakesHold(st: State, call: Call, env: Env)
    requires (call.SetAdmin? || call.SetVerifier?) && Accepts(st, call, env)
    ensures var st' := Step(st, call, env);
            && st.admin in env.witnesses
            && Some(st'.admin) == (if call.SetAdmin? then call.newAdmin else Some(st.admin))
            && st'.verifier == (if call.SetVerifier? then call.key else st.verifier)
            && (st'.bindings, st'.masters, st'.actions) == (st.bindings, st.masters, st.actions)
  {
  }

  predicate Sized(a: Arg, min: nat, max: nat) {
    a.Some? && min <= |a.value| <= max
  }

  /** Exactly when a call about bindings or tickets is accepted. */
  lemma AcceptedExactlyWhen(st: State, call: Call, env: Env)
    ensures call.RegisterBinding? ==>
              (Accepts(st, call, env) <==>
                 && Sized(call.vault, 20, 20) && Sized(call.provider, 1, 32) && Sized(call.claimType, 1, 64)
                 && (call.claimValue.None? || Sized(call.claimValue, 0, 128))
                 && Sized(call.master, 32, 32) && Sized(call.metadata, 32, 32) && Sized(call.signature, 64, 64)
                 && Witnessed(env, st, call.vault.value) && call.master.value !in st.masters
                 && (var key := BindingKey(call.vault.value, call.provider.value, call.claimType.value);
                     key in st.bindings ==> !st.bindings[key].active)
                 && st.verifier.Some?
                 && env.verifies(st.verifier.value,
                      BindingPreimage(call.vault.value, call.provider.value, call.claimType.value,
                                      if call.claimValue.Some? then call.claimValue.value else [],
                                      call.master.value, call.metadata.value, env.network),
                      call.signature.value))
    ensures call.RevokeBinding? ==>
              (Accepts(st, call, env) <==>
                 && Sized(call.vault, 20, 20) && Sized(call.provider, 1, 32) && Sized(call.claimType, 1, 64)
                 && Witnessed(env, st, call.vault.value)
                 && var key := BindingKey(call.vault.value, call.provider.value, call.claimType.value);
                    key in st.bindings && st.bindings[key].active)
    ensures call.UseActionTicket? ==>
              (Accepts(st, call, env) <==>
                 && Sized(call.account, 20, 20) && Sized(call.actionId, 1, 128)
                 && Sized(call.nullifier, 32, 32) && Sized(call.signature, 64, 64)
                 && call.account.value in env.witnesses && call.nullifier.value !in st.actions
                 && st.verifier.Some?
                 && env.verifies(st.verifier.value,
                      ActionPreimage(call.account.value, call.actionId.value, call.nullifier.value, env.network),
                      call.signature.value))
  {
    hide BindingKey, BindingPreimage, ActionPreimage;
  }

  /** A registration stores its arguments as an active binding, for the vault's owner or the admin, if signed. */
  lemma RegistrationStores(st: State, call: Call, env: Env)
    requires call.RegisterBinding? && Accepts(st, call, env)
    ensures call.vault.Some? && |call.vault.value| == 20 && call.provider.Some? && 0 < |call.provider.value| <= 32
    ensures call.claimType.Some? && 0 < |call.claimType.value| <= 64 && call.master.Some? && |call.master.value| == 32
    ensures call.metadata.Some? && |call.metadata.value| == 32 && call.signature.Some? && |call.signature.value| == 64
    ensures call.claimValue.Some? ==> |call.claimValue.value| <= 128
    ensures var st' := Step(st, call, env);
            var key := BindingKey(call.vault.value, call.provider.value, call.claimType.value);
            var text := if call.claimValue.Some? then call.claimValue.value else [];
            && Witnessed(env, st, call.vault.value) && call.master.value !in st.masters
            && (key in st.bindings ==> !st.bindings[key].active)
            && st.verifier.Some?
            && env.verifies(st.verifier.value,
                            BindingPreimage(call.vault.value, call.provider.value, call.claimType.value, text,
                                            call.master.value, call.metadata.value, env.network),
                            call.signature.value)
            && key in st'.bindings
            && var r := st'.bindings[key];
               && r.vault == call.vault.value
               && r.provider == call.provider.value && r.claimType == call.claimType.value
               && r.claimValue == text && r.master == call.master.value && r.metadata == call.metadata.value
               && r.createdAt == env.time && r.revokedAt == 0 && r.active
               && (forall other :: other != key ==>
                     && (other in st'.bindings <==> other in st.bindings)
                     && (other in st.bindings ==> st'.bindings[other] == st.bindings[other]))
               && st'.masters == st.masters + {call.master.value}
               && (st'.actions, st'.admin, st'.verifier) == (st.actions, st.admin, st.verifier)
  {
    hide BindingKey, BindingPreimage;
  }

  /** A revocation ends an active binding, for the same parties, and changes nothing else about it or any other. */
  lemma RevocationEnds(st: State, call: Call, env: Env)
    requires call.RevokeBinding? && Accepts(st, call, env)
    ensures call.vault.Some? && call.provider.Some? && call.claimType.Some?
    ensures |call.provider.value| <= 255 && |call.claimType.value| <= 255
    ensures var st' := Step(st, call, env);
            var key := BindingKey(call.vault.value, call.provider.value, call.claimType.value);
            && Witnessed(env, st, call.vault.value)
            && key in st.bindings && st.bindings[key].active && key in st'.bindings
            && st'.bindings[key] == st.bindings[key].(active := false, revokedAt := env.time)
            && (forall other :: other != key ==>
                  && (other in st'.bindings <==> other in st.bindings)
                  && (other in st.bindings ==> st'.bindings[other] == st.bindings[other]))
            && (st'.masters, st'.actions, st'.admin, st'.verifier) == (st.masters, st.actions, st.admin, st.verifier)
  {
    hide BindingKey;
  }

  /** A ticket is used by its own account, unused before, signed, and consumed at the call's time. */
  lemma TicketIsConsumed(st: State, call: Call, env: Env)
    requires call.UseActionTicket? && Accepts(st, call, env)
    ensures call.account.Some? && |call.account.value| == 20 && call.actionId.Some? && 0 < |call.actionId.value| <= 128
    ensures call.nullifier.Some? && |call.nullifier.value| == 32 && call.signature.Some? && |call.signature.value| == 64
    ensures var st' := Step(st, call, env);
            && call.account.value in env.witnesses && call.nullifier.value !in st.actions
            && st.verifier.Some?
            && env.verifies(st.verifier.value,
                            ActionPreimage(call.account.value, call.actionId.value, call.nullifier.value, env.network),
                            call.signature.value)
            && st'.actions == st.actions[call.nullifier.value := env.time]
            && (st'.bindings, st'.masters, st'.admin, st'.verifier) == (st.bindings, st.masters, st.admin, st.verifier)
  {
    hide ActionPreimage;
  }

  // ----- The contract -----

  class NeoDIDRegistry {
    var admin: Octets
    var verifier: Option<Octets>
    var bindings: map<Octets, Record>
    var masters: set<Octets>
    var actions: map<Octets, int>

    constructor (sender: Octets)
      ensures Contents() == Deployed(sender)
    {
      admin := sender;
      verifier := None;
      bindings := map[];
      masters := {};
      actions := map[];
    }

    ghost function Contents(): State
      reads this
    {
      State(admin, verifier, bindings, masters, actions)
    }

    static method EncodeCanonicalHash160(raw: Octets) returns (canonical: Octets)
      ensures canonical == Reversed(raw)
    {
      var bytes := new byte[|raw|](_ => 0);
      var i := 0;
      while i < |raw|
        invariant 0 <= i <= |raw|
        invariant forall k :: 0 <= k < i ==> bytes[k] == raw[|raw| - 1 - k]
      {
        bytes[i] := raw[|raw| - 1 - i];
        i := i + 1;
      }
      assert bytes[..] == Reversed(raw);
      return bytes[..];
    }

    static method BuildBindingPreimage(call: Call, network: nat) returns (payload: Octets)
      requires call.RegisterBinding? && BindingArguments(call)
      ensures payload == BindingPreimage(call.vault.value, call.provider.value, call.claimType.value,
                                         OrEmpty(call.claimValue), call.master.value, call.metadata.value, network)
    {
      hide Reversed, EncodeSegment;
      payload := BINDING_DOMAIN;
      var canonical := EncodeCanonicalHash160(call.vault.value);
      payload := payload + canonical;
      payload := payload + EncodeSegment(call.provider.value);
      payload := payload + EncodeSegment(call.claimType.value);
      payload := payload + EncodeSegment(OrEmpty(call.claimValue));
      payload := payload + call.master.value;
      payload := payload + call.metadata.value;
      payload := payload + Words.NetworkMagicLe4(network);
    }

    method RegisterBinding(call: Call, env: Env) returns (ok: bool)
      requires call.RegisterBinding?
      modifies this
      ensures ok == Accepts(old(Contents()), call, env)
      ensures Contents() == Step(old(Contents()), call, env)
    {
      hide BindingKey, BindingPreimage;
      if !BindingArguments(call) {
        return false;
      }
      var (vault, provider, claimType) := (call.vault.value, call.provider.value, call.claimType.value);
      if !(vault in env.witnesses || admin in env.witnesses) || call.master.value in masters {
        return false;
      }
      var key := BindingKey(vault, provider, claimType);
      if key in bindings && bindings[key].active {
        return false;
      }
      var payload := BuildBindingPreimage(call, env.network);
      if verifier.None? || !env.verifies(verifier.value, payload, call.signature.value) {
        return false;
      }
      bindings := bindings[key := Record(vault, provider, claimType, OrEmpty(call.claimValue), call.master.value,
                                         call.metadata.value, env.time, 0, true)];
      masters := masters + {call.master.value};
      return true;
    }

    method RevokeBinding(call: Call, env: Env) returns (ok: bool)
      requires call.RevokeBinding?
      modifies this
      ensures ok == Accepts(old(Contents()), call, env)
      ensures Contents() == Step(old(Contents()), call, env)
    {
      hide BindingKey;
      if !(ValidHash160(call.vault) && ShortText(call.provider, 32) && ShortText(call.claimType, 64)) {
        return false;
      }
      var vault := call.vault.value;
      if !(vault in env.witnesses || admin in env.witnesses) {
        return false;
      }
      var key := BindingKey(vault, call.provider.value, call.claimType.value);
      if !(key in bindings && bindings[key].active) {
        return false;
      }
      var record := bindings[key];
      record := record.(active := false);
      record := record.(revokedAt := env.time);
      bindings := bindings[key := record];
      return true;
    }

    method UseActionTicket(call: Call, env: Env) returns (ok: bool)
      requires call.UseActionTicket?
      modifies this
      ensures ok == Accepts(old(Contents()), call, env)
      ensures Contents() == Step(old(Contents()), call, env)
    {
      hide Reversed, EncodeSegment;
      if !(ValidHash160(call.account) && ShortText(call.actionId, 128)) {
        return false;
      }
      if !(HasLength(call.nullifier, 32) && HasLength(call.signature, 64)) {
        return false;
      }
      if call.account.value !in env.witnesses || call.nullifier.value in actions {
        return false;
      }
      var canonical := EncodeCanonicalHash160(call.account.value);
      var payload := ACTION_DOMAIN + canonical;
      payload := payload + EncodeSegment(call.actionId.value);
      payload := payload + call.nullifier.value;
      payload := payload + Words.NetworkMagicLe4(env.network);
      if verifier.None? || !env.verifies(verifier.value, payload, call.signature.value) {
        return false;
      }
      actions := actions[call.nullifier.value := env.time];
      return true;
    }
  }
}
