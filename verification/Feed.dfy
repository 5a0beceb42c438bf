/** contracts/MorpheusDataFeed/MorpheusDataFeed.cs: feed records, the pair index and the signed message. */
module Feed {
  import opened Prelude
  import opened Decimals
  import Bytes
  import Words

  type Text = Option<string>

  // ----- The signed message -----

  function BuildFeedMessage(pair: string, price: int, timestamp: int, roundId: int): string {
    pair + "|" + Itoa(price) + "|" + Itoa(timestamp) + "|" + Itoa(roundId)
  }

  /** Symbol, price, timestamp and round, in this order; the worker's signer writes the same. */
  lemma FeedMessageExample()
    ensures BuildFeedMessage("BTC-USD", 5, 17, 7) == "BTC-USD|5|17|7"
  {
    assert Decimal(17) == Decimal(1) + ['7'] == "17";
  }

  lemma SplitAtLastBar(a: string, b: string, c: string, d: string)
    requires '|' !in b && '|' !in d && a + "|" + b == c + "|" + d
    ensures a == c && b == d
  {
    var s := a + "|" + b;
    assert forall i :: |a| < i < |s| ==> s[i] == b[i - |a| - 1] != '|';
    assert s == c + "|" + d;
    assert forall i :: |c| < i < |s| ==> s[i] == d[i - |c| - 1] != '|';
    assert s[|a|] == '|' && s[|c|] == '|';
    assert a == s[..|a|] && c == s[..|c|];
    assert b == s[|a| + 1..] && d == s[|c| + 1..];
  }

  /** Distinct fields make distinct messages, even for pairs that contain the separator. */
  lemma FeedMessageInjective(pair: string, price: int, timestamp: int, roundId: int,
                             pair': string, price': int, timestamp': int, roundId': int)
    requires BuildFeedMessage(pair, price, timestamp, roundId) == BuildFeedMessage(pair', price', timestamp', roundId')
    ensures (pair, price, timestamp, roundId) == (pair', price', timestamp', roundId')
  {
    hide Decimal;
    SplitAtLastBar(pair + "|" + Itoa(price) + "|" + Itoa(timestamp), Itoa(roundId),
                   pair' + "|" + Itoa(price') + "|" + Itoa(timestamp'), Itoa(roundId'));
    SplitAtLastBar(pair + "|" + Itoa(price), Itoa(timestamp), pair' + "|" + Itoa(price'), Itoa(timestamp'));
    SplitAtLastBar(pair, Itoa(price), pair', Itoa(price'));
    ItoaInjective(roundId, roundId');
    ItoaInjective(timestamp, timestamp');
    ItoaInjective(price, price');
  }

  // ----- State -----

  datatype Record = Record(pair: string, roundId: int, price: int, timestamp: int, hash: string, sourceSetId: int)

  /** The pair index maps a position, as the octets of its number, to a pair. */
  datatype State = State(
    admin: string,
    updater: Text,
    key: Text,
    feeds: map<string, Record>,
    index: map<seq<Bytes.byte>, string>,
    count: nat)

  function PairByIndex(st: State, i: nat): string {
    var key := Words.ToByteArray(i);
    if key in st.index then st.index[key] else ""
  }

  function AllPairs(st: State): (pairs: seq<string>)
    ensures |pairs| == st.count
    ensures forall i :: 0 <= i < st.count ==> pairs[i] == PairByIndex(st, i)
  {
    seq(st.count, i requires 0 <= i < st.count => PairByIndex(st, i))
  }

  // ----- Calls -----

  /** The arguments of one write, as passed. */
  datatype Update = Update(pair: Text, roundId: int, price: int, timestamp: int, hash: Text, sourceSetId: int)

  datatype Call =
    | SetAdmin(newAdmin: Text)
    | SetUpdater(newUpdater: Text)
    | SetVerificationKey(newKey: Text, keyIsValid: bool)
    | ClearVerificationKey
    | UpdateFeed(update: Update)
    | UpdateFeedSigned(update: Update, signature: Text)
    | UpdateFeeds(updates: seq<Update>)
    | AdminResetFeed(update: Update)

  /** What a transaction brings along; verifies stands for ECDSA under a key. */
  datatype Env = Env(witnesses: set<string>, verifies: (string, string, string) -> bool)

  predicate ValidAccount(a: Text) {
    a.Some? && |a.value| == 20
  }

  predicate ValidInputs(u: Update) {
    && u.pair.Some? && u.pair.value != ""
    && u.roundId >= 0 && u.price >= 0 && u.timestamp >= 0 && u.sourceSetId >= 0
    && (u.hash.Some? ==> |u.hash.value| <= 32)
  }

  function RecordOf(u: Update): Record
    requires ValidInputs(u)
  {
    Record(u.pair.value, u.roundId, u.price, u.timestamp, if u.hash.Some? then u.hash.value else "", u.sourceSetId)
  }

  predicate SignatureHolds(st: State, u: Update, signature: Text, env: Env)
    requires ValidInputs(u)
  {
    st.key.Some? ==>
      && signature.Some? && signature.value != ""
      && '|' !in u.pair.value
      && env.verifies(st.key.value, BuildFeedMessage(u.pair.value, u.price, u.timestamp, u.roundId), signature.value)
  }

  /** IndexPairIfNeeded, then WriteFeedRecord. */
  function Write(st: State, r: Record): State {
    var indexed :=
      if r.pair in st.feeds then st
      else st.(index := st.index[Words.ToByteArray(st.count) := r.pair], count := st.count + 1);
    indexed.(feeds := st.feeds[r.pair := r])
  }

  predicate CanUpdate(st: State, u: Update, signature: Text, env: Env) {
    && ValidInputs(u)
    && SignatureHolds(st, u, signature, env)
    && (u.pair.value in st.feeds ==>
          var existing := st.feeds[u.pair.value];
          u.roundId > existing.roundId && u.timestamp >= existing.timestamp)
  }

  /** UpdateFeedInternal; None is an abort. */
  function UpdateOne(st: State, u: Update, signature: Text, env: Env): Option<State> {
    if CanUpdate(st, u, signature, env) then Some(Write(st, RecordOf(u))) else None
  }

  /** The left fold of unsigned single writes; one failure fails them all. */
  function UpdateAll(st: State, us: seq<Update>, env: Env): Option<State>
    decreases us
  {
    if us == [] then Some(st)
    else
      match UpdateOne(st, us[0], None, env)
      case None => None
      case Some(st') => UpdateAll(st', us[1..], env)
  }

  predicate IsUpdater(st: State, env: Env) {
    ValidAccount(st.updater) && st.updater.value in env.witnesses
  }

  /** What a call does; None is an abort. */
  function Effect(st: State, call: Call, env: Env): Option<State> {
    match call
    case SetAdmin(a) => if st.admin in env.witnesses && ValidAccount(a) then Some(st.(admin := a.value)) else None
    case SetUpdater(a) => if st.admin in env.witnesses && ValidAccount(a) then Some(st.(updater := a)) else None
    case SetVerificationKey(k, valid) =>
      if st.admin in env.witnesses && k.Some? && valid then Some(st.(key := k)) else None
    case ClearVerificationKey => if st.admin in env.witnesses then Some(st.(key := None)) else None
    case UpdateFeed(u) => if IsUpdater(st, env) then UpdateOne(st, u, None, env) else None
    case UpdateFeedSigned(u, signature) => if IsUpdater(st, env) then UpdateOne(st, u, signature, env) else None
    case UpdateFeeds(us) => if IsUpdater(st, env) && us != [] then UpdateAll(st, us, env) else None
    case AdminResetFeed(u) => if st.admin in env.witnesses && ValidInputs(u) then Some(Write(st, RecordOf(u))) else None
  }

  function Step(st: State, call: Call, env: Env): State {
    var r := Effect(st, call, env);
    if r.Some? then r.value else st
  }

  type Transaction = (Call, Env)

  function Run(st: State, txs: seq<Transaction>): State
    decreases txs
  {
    if txs == [] then st else Run(Step(st, txs[0].0, txs[0].1), txs[1..])
  }

  function Deployed(sender: string): State {
    State(sender, None, None, map[], map[], 0)
  }

  // ----- What a write stores -----

  /** The record says what the update said; an absent hash reads as empty. */
  predicate Says(r: Record, u: Update) {
    && u.pair == Some(r.pair)
    && r.roundId == u.roundId && r.price == u.price && r.timestamp == u.timestamp
    && r.hash == (match u.hash case None => "" case Some(hash) => hash)
    && r.sourceSetId == u.sourceSetId
  }

  /** An update stored: its pair reads as it says, and every other pair as before. */
  ghost predicate Stored(st: State, st': State, u: Update) {
    && u.pair.Some? && u.pair.value in st'.feeds && Says(st'.feeds[u.pair.value], u)
    && (forall other :: other != u.pair.value ==>
          && (other in st'.feeds <==> other in st.feeds)
          && (other in st.feeds ==> st'.feeds[other] == st.feeds[other]))
  }

  lemma WriteStores(st: State, u: Update)
    requires ValidInputs(u)
    ensures Stored(st, Write(st, RecordOf(u)), u)
  {
  }

  /** An accepted single write or reset stores its arguments, and only for the updater or the admin. */
  lemma SingleWriteStores(st: State, call: Call, env: Env)
    requires (call.UpdateFeed? || call.UpdateFeedSigned? || call.AdminResetFeed?) && Effect(st, call, env).Some?
    ensures Stored(st, Step(st, call, env), call.update)
    ensures if call.AdminResetFeed? then st.admin in env.witnesses
            else st.updater.Some? && st.updater.value in env.witnesses
  {
    WriteStores(st, call.update);
  }

  /** Exactly when a single write is accepted. */
  lemma WriteAcceptedExactlyWhen(st: State, call: Call, env: Env)
    requires call.UpdateFeed? || call.UpdateFeedSigned? || call.AdminResetFeed?
    ensures var u := call.update;
            Effect(st, call, env).Some? <==>
              && u.pair.Some? && u.pair.value != ""
              && u.roundId >= 0 && u.price >= 0 && u.timestamp >= 0 && u.sourceSetId >= 0
              && (u.hash.None? || |u.hash.value| <= 32)
              && if call.AdminResetFeed? then st.admin in env.witnesses
                 else
                   && st.updater.Some? && |st.updater.value| == 20 && st.updater.value in env.witnesses
                   && (u.pair.value in st.feeds ==>
                         && st.feeds[u.pair.value].roundId < u.roundId
                         && st.feeds[u.pair.value].timestamp <= u.timestamp)
                   && (st.key.Some? ==>
                         && call.UpdateFeedSigned? && call.signature.Some? && call.signature.value != ""
                         && '|' !in u.pair.value
                         && env.verifies(st.key.value, BuildFeedMessage(u.pair.value, u.price, u.timestamp, u.roundId),
                                         call.signature.value))
  {
    hide BuildFeedMessage, Write;
  }

  /** A batch is the updater's, and not empty. */
  lemma BatchIsTheUpdaters(st: State, call: Call, env: Env)
    requires call.UpdateFeeds?
    ensures Effect(st, call, env).Some? <==>
              && call.updates != [] && UpdateAll(st, call.updates, env).Some?
              && st.updater.Some? && |st.updater.value| == 20 && st.updater.value in env.witnesses
  {
  }

  /** An accepted setting is the admin's, is what the call says, and touches no record. */
  lemma SettingTakesHold(st: State, call: Call, env: Env)
    requires call.SetAdmin? || call.SetUpdater? || call.SetVerificationKey? || call.ClearVerificationKey?
    requires Effect(st, call, env).Some?
    ensures var st' := Step(st, call, env);
            && st.admin in env.witnesses
            && Some(st'.admin) == (if call.SetAdmin? then call.newAdmin else Some(st.admin))
            && st'.updater == (if call.SetUpdater? then call.newUpdater else st.updater)
            && st'.key == (if call.SetVerificationKey? then call.newKey
                           else if call.ClearVerificationKey? then None else st.key)
            && (st'.feeds, st'.index, st'.count) == (st.feeds, st.index, st.count)
  {
  }

  /** With a key registered, no write of the updater goes through unsigned or with another signature's fields. */
  lemma KeyedWritesAreSigned(st: State, call: Call, env: Env)
    requires st.key.Some? && Effect(st, call, env).Some?
    ensures !call.UpdateFeed? && !call.UpdateFeeds?
    ensures call.UpdateFeedSigned? ==>
              var u := call.update;
              && u.pair.Some? && '|' !in u.pair.value && call.signature.Some?
              && var message := u.pair.value + "|" + Itoa(u.price) + "|" + Itoa(u.timestamp) + "|" + Itoa(u.roundId);
                 env.verifies(st.key.value, message, call.signature.value)
  {
  }

  /** How a pair reads after a batch: as the last update for it says, or as before. */
  predicate ReadsAfter(st: State, st': State, us: seq<Update>, pair: string) {
    match Latest(us, pair)
    case Some(u) => pair in st'.feeds && Says(st'.feeds[pair], u)
    case None => (pair in st'.feeds <==> pair in st.feeds) && (pair in st.feeds ==> st'.feeds[pair] == st.feeds[pair])
  }

  /** An accepted batch: each pair reads as the last update for it says, and pairs it does not name as before. */
  lemma {:induction false} BatchStores(st: State, us: seq<Update>, env: Env)
    requires UpdateAll(st, us, env).Some?
    ensures var st' := UpdateAll(st, us, env).value;
            forall pair :: ReadsAfter(st, st', us, pair)
    decreases us
  {
    hide Write, RecordOf, SignatureHolds, Says;
    if us != [] {
      var st1, st' := Write(st, RecordOf(us[0])), UpdateAll(st, us, env).value;
      WriteStores(st, us[0]);
      BatchStores(st1, us[1..], env);
      forall pair
        ensures ReadsAfter(st, st', us, pair)
      {
        LatestFromFront(us, pair);
        assert ReadsAfter(st1, st', us[1..], pair);
      }
    }
  }

  // ----- The history of writes -----

  /** The updates a call writes, in order, if it is accepted. */
  function Written(st: State, call: Call, env: Env): seq<Update> {
    if Effect(st, call, env).None? then []
    else
      match call
      case UpdateFeed(u) => [u]
      case UpdateFeedSigned(u, _) => [u]
      case AdminResetFeed(u) => [u]
      case UpdateFeeds(us) => us
      case _ => []
  }

  /** The updates of a run's accepted calls. */
  function Log(st: State, txs: seq<Transaction>): seq<Update>
    decreases txs
  {
    if txs == [] then []
    else Written(st, txs[0].0, txs[0].1) + Log(Step(st, txs[0].0, txs[0].1), txs[1..])
  }

  /** The last update for a pair. */
  function Latest(log: seq<Update>, pair: string): Option<Update> {
    if log == [] then None
    else if log[|log| - 1].pair == Some(pair) then Some(log[|log| - 1])
    else Latest(log[..|log| - 1], pair)
  }

  lemma {:induction false} LatestFromFront(log: seq<Update>, pair: string)
    requires log != []
    ensures Latest(log, pair) == var rest := Latest(log[1..], pair);
                                 if rest.Some? then rest else if log[0].pair == Some(pair) then Some(log[0]) else None
  {
    var n := |log| - 1;
    if n == 0 {
      assert log[..0] == [] && log[1..] == [];
    } else {
      assert log[1..][..n - 1] == log[..n][1..] && log[1..][n - 1] == log[n];
      if log[n].pair != Some(pair) {
        LatestFromFront(log[..n], pair);
      }
    }
  }

  /** The pairs of a history, each once, in the order of their first writes. */
  function FirstWrites(log: seq<Update>): seq<string> {
    if log == [] then []
    else
      var init, pair := log[..|log| - 1], log[|log| - 1].pair;
      if pair.None? || Latest(init, pair.value).Some? then FirstWrites(init) else FirstWrites(init) + [pair.value]
  }

  /** The state says of the history: the latest update of each pair, and the pairs in first-write order. */
  ghost predicate Tells(st: State, log: seq<Update>) {
    && (forall pair ::
          match Latest(log, pair)
          case None => pair !in st.feeds
          case Some(u) => pair in st.feeds && Says(st.feeds[pair], u))
    && AllPairs(st) == FirstWrites(log)
  }

  lemma WriteTells(st: State, log: seq<Update>, u: Update)
    requires Tells(st, log) && ValidInputs(u)
    ensures Tells(Write(st, RecordOf(u)), log + [u])
  {
    hide Words.ToByteArray, AllPairs, Says;
    var log', st', pair := log + [u], Write(st, RecordOf(u)), u.pair.value;
    assert log'[..|log'| - 1] == log;
    assert Says(RecordOf(u), u) by { WriteStores(st, u); }
    if pair !in st.feeds {
      forall i: nat | i < st.count
        ensures PairByIndex(st', i) == PairByIndex(st, i)
      {
        if Words.ToByteArray(i) == Words.ToByteArray(st.count) {
          Words.ByteArrayInjective(i, st.count);
        }
      }
      assert AllPairs(st') == AllPairs(st) + [pair];
    } else {
      assert AllPairs(st') == AllPairs(st);
    }
  }

  /** In order, rounds of a pair strictly rise and its timestamps never fall. */
  predicate Ordered(log: seq<Update>) {
    forall i, j :: 0 <= i < j < |log| && log[i].pair == log[j].pair && log[i].pair.Some? ==>
      log[i].roundId < log[j].roundId && log[i].timestamp <= log[j].timestamp
  }

  lemma {:induction false} LatestIsGreatest(log: seq<Update>, i: nat)
    requires Ordered(log) && i < |log| && log[i].pair.Some?
    ensures var r := Latest(log, log[i].pair.value);
            r.Some? && log[i].roundId <= r.value.roundId && log[i].timestamp <= r.value.timestamp
  {
    if log[|log| - 1].pair != log[i].pair {
      LatestIsGreatest(log[..|log| - 1], i);
    }
  }

  lemma UpdateOneTells(st: State, log: seq<Update>, u: Update, signature: Text, env: Env)
    requires Tells(st, log) && CanUpdate(st, u, signature, env)
    ensures Tells(Write(st, RecordOf(u)), log + [u])
    ensures Ordered(log) ==> Ordered(log + [u])
  {
    hide Write, SignatureHolds, AllPairs, FirstWrites, Latest;
    WriteTells(st, log, u);
    if Ordered(log) {
      forall i | 0 <= i < |log| && log[i].pair == u.pair
        ensures log[i].roundId < u.roundId && log[i].timestamp <= u.timestamp
      {
        LatestIsGreatest(log, i);
      }
    }
  }

  lemma {:induction false} UpdateAllTells(st: State, log: seq<Update>, us: seq<Update>, env: Env)
    requires Tells(st, log) && UpdateAll(st, us, env).Some?
    ensures Tells(UpdateAll(st, us, env).value, log + us)
    ensures Ordered(log) ==> Ordered(log + us)
    decreases us
  {
    hide Write, Tells, Ordered, RecordOf, SignatureHolds;
    if us == [] {
      assert log + us == log;
    } else {
      UpdateOneTells(st, log, us[0], None, env);
      UpdateAllTells(Write(st, RecordOf(us[0])), log + [us[0]], us[1..], env);
      assert log + [us[0]] + us[1..] == log + us;
    }
  }

  lemma StepTells(st: State, log: seq<Update>, call: Call, env: Env)
    requires Tells(st, log)
    ensures Tells(Step(st, call, env), log + Written(st, call, env))
    ensures Ordered(log) && !call.AdminResetFeed? ==> Ordered(log + Written(st, call, env))
  {
    hide Write, Ordered, RecordOf, SignatureHolds, Latest, FirstWrites, UpdateAll, Says;
    if Effect(st, call, env).None? || Written(st, call, env) == [] {
      assert log + Written(st, call, env) == log;
    }
    if Effect(st, call, env).Some? {
      match call
      case UpdateFeed(u) => UpdateOneTells(st, log, u, None, env);
      case UpdateFeedSigned(u, signature) => UpdateOneTells(st, log, u, signature, env);
      case AdminResetFeed(u) => WriteTells(st, log, u);
      case UpdateFeeds(us) => UpdateAllTells(st, log, us, env);
      case _ => assert AllPairs(Step(st, call, env)) == AllPairs(st);
    }
  }

  ghost predicate NoReset(txs: seq<Transaction>) {
    forall tx :: tx in txs ==> !(tx.0).AdminResetFeed?
  }

  lemma {:induction false} RunTells(st: State, log: seq<Update>, txs: seq<Transaction>)
    requires Tells(st, log)
    ensures Tells(Run(st, txs), log + Log(st, txs))
    ensures Ordered(log) && NoReset(txs) ==> Ordered(log + Log(st, txs))
    decreases txs
  {
    hide Step, Written, Tells, Ordered;
    if txs == [] {
      assert log + Log(st, txs) == log;
    } else {
      var (call, env) := txs[0];
      StepTells(st, log, call, env);
      RunTells(Step(st, call, env), log + Written(st, call, env), txs[1..]);
      assert log + Written(st, call, env) + Log(Step(st, call, env), txs[1..]) == log + Log(st, txs);
      assert NoReset(txs) ==> txs[0] in txs && NoReset(txs[1..]);
    }
  }

  /**
   From deployment, whatever is called: a pair reads as the arguments of the last accepted write for it, and the index
   lists every written pair once, in first-write order. Without AdminResetFeed rounds strictly rise and time never
   falls.
   */
  lemma FeedHistory(sender: string, txs: seq<Transaction>)
    ensures var st, log := Run(Deployed(sender), txs), Log(Deployed(sender), txs);
            && (forall pair ::
                  match Latest(log, pair)
                  case None => pair !in st.feeds
                  case Some(u) => pair in st.feeds && Says(st.feeds[pair], u))
            && AllPairs(st) == FirstWrites(log)
            && (NoReset(txs) ==> Ordered(log))
  {
    hide Run, Log, Says;
    var st := Deployed(sender);
    assert AllPairs(st) == [];
    RunTells(st, [], txs);
    assert [] + Log(st, txs) == Log(st, txs);
  }

  /** The reference order lists each pair of the history once. */
  lemma {:induction false} FirstWritesAreDistinct(log: seq<Update>)
    ensures var pairs := FirstWrites(log);
            && (forall i, j :: 0 <= i < j < |pairs| ==> pairs[i] != pairs[j])
            && (forall pair :: pair in pairs <==> Latest(log, pair).Some?)
  {
    if log != [] {
      FirstWritesAreDistinct(log[..|log| - 1]);
    }
  }

  predicate IsLast(log: seq<Update>, k: int, pair: string) {
    0 <= k < |log| && log[k].pair == Some(pair) && forall i :: k < i < |log| ==> log[i].pair != Some(pair)
  }

  /** A pair has a latest update exactly if the history holds a write for it, and none for it comes later. */
  lemma {:induction false} LatestIsLast(log: seq<Update>, pair: string)
    ensures var r := Latest(log, pair);
            if r.None? then forall i :: 0 <= i < |log| ==> log[i].pair != Some(pair)
            else exists k :: IsLast(log, k, pair) && log[k] == r.value
  {
    if log != [] {
      var n := |log| - 1;
      if log[n].pair == Some(pair) {
        assert IsLast(log, n, pair);
      } else {
        LatestIsLast(log[..n], pair);
        assert forall i :: 0 <= i < n ==> log[i] == log[..n][i];
        if k :| IsLast(log[..n], k, pair) && log[..n][k] == Latest(log[..n], pair).value {
          assert IsLast(log, k, pair);
        }
      }
    }
  }

  // ----- A batch is its single writes -----

  function Singles(us: seq<Update>, env: Env): (txs: seq<Transaction>) {
    if us == [] then [] else [(UpdateFeed(us[0]), env)] + Singles(us[1..], env)
  }

  predicate AllAccepted(st: State, txs: seq<Transaction>)
    decreases txs
  {
    txs != [] ==>
      && Effect(st, txs[0].0, txs[0].1).Some?
      && AllAccepted(Step(st, txs[0].0, txs[0].1), txs[1..])
  }

  /** UpdateFeeds commits exactly when its writes, sent one by one, are all accepted, and with the same outcome. */
  lemma {:induction false} BatchIsItsSingles(st: State, us: seq<Update>, env: Env)
    requires IsUpdater(st, env)
    ensures UpdateAll(st, us, env).Some? <==> AllAccepted(st, Singles(us, env))
    ensures UpdateAll(st, us, env).Some? ==> UpdateAll(st, us, env).value == Run(st, Singles(us, env))
    decreases us
  {
    hide SignatureHolds, RecordOf, Words.ToByteArray;
    if us != [] {
      assert Singles(us, env)[1..] == Singles(us[1..], env);
      if CanUpdate(st, us[0], None, env) {
        BatchIsItsSingles(Write(st, RecordOf(us[0])), us[1..], env);
      }
    }
  }

  // ----- The contract -----

  class MorpheusDataFeed {
    var admin: string
    var updater: Text
    var key: Text
    var feeds: map<string, Record>
    var index: map<seq<Bytes.byte>, string>
    var count: nat

    constructor (sender: string)
      ensures Contents() == Deployed(sender)
    {
      admin := sender;
      updater := None;
      key := None;
      feeds := map[];
      index := map[];
      count := 0;
    }

    ghost function Contents(): State
      reads this
    {
      State(admin, updater, key, feeds, index, count)
    }

    method IndexPairIfNeeded(pair: string)
      modifies `index, `count
      ensures index == if pair in feeds then old(index) else old(index)[Words.ToByteArray(old(count)) := pair]
      ensures count == if pair in feeds then old(count) else old(count) + 1
    {
      if pair in feeds {
        return;
      }
      index := index[Words.ToByteArray(count) := pair];
      count := count + 1;
    }

    method WriteFeed(r: Record)
      modifies `index, `count, `feeds
      ensures Contents() == Write(old(Contents()), r)
    {
      hide Words.ToByteArray;
      IndexPairIfNeeded(r.pair);
      feeds := feeds[r.pair := r];
    }

    method UpdateFeedInternal(u: Update, signature: Text, env: Env) returns (ok: bool)
      modifies `index, `count, `feeds
      ensures UpdateOne(old(Contents()), u, signature, env) == if ok then Some(Contents()) else None
      ensures !ok ==> Contents() == old(Contents())
    {
      hide Write, BuildFeedMessage;
      if !ValidInputs(u) {
        return false;
      }
      var pair := u.pair.value;
      if key.Some? {
        if signature.None? || signature.value == "" || '|' in pair {
          return false;
        }
        var message := BuildFeedMessage(pair, u.price, u.timestamp, u.roundId);
        if !env.verifies(key.value, message, signature.value) {
          return false;
        }
      }
      if pair in feeds {
        var existing := feeds[pair];
        if u.roundId <= existing.roundId || u.timestamp < existing.timestamp {
          return false;
        }
      }
      WriteFeed(RecordOf(u));
      return true;
    }

    /** The batch entry point; the virtual machine undoes every write of a transaction that aborts. */
    method UpdateFeeds(pairs: Option<seq<Text>>, roundIds: Option<seq<int>>, prices: Option<seq<int>>,
                       timestamps: Option<seq<int>>, hashes: Option<seq<Text>>, sourceSetIds: Option<seq<int>>,
                       env: Env)
      returns (ok: bool)
      modifies `index, `count, `feeds
      ensures !ok ==> Contents() == old(Contents())
      ensures !Aligned(pairs, roundIds, prices, timestamps, hashes, sourceSetIds) ==> !ok
      ensures Aligned(pairs, roundIds, prices, timestamps, hashes, sourceSetIds) ==>
                var us := Zipped(pairs.value, roundIds.value, prices.value, timestamps.value, hashes.value,
                                 sourceSetIds.value);
                Effect(old(Contents()), Call.UpdateFeeds(us), env) == if ok then Some(Contents()) else None
    {
      hide Write, CanUpdate;
      if !(ValidAccount(updater) && updater.value in env.witnesses) {
        return false;
      }
      if !Aligned(pairs, roundIds, prices, timestamps, hashes, sourceSetIds) {
        return false;
      }
      ghost var us := Zipped(pairs.value, roundIds.value, prices.value, timestamps.value, hashes.value,
                             sourceSetIds.value);
      var feeds0, index0, count0 := feeds, index, count;
      var i := 0;
      while i < |pairs.value|
        invariant 0 <= i <= |us|
        invariant UpdateAll(old(Contents()), us, env) == UpdateAll(Contents(), us[i..], env)
      {
        var u := Update(pairs.value[i], roundIds.value[i], prices.value[i], timestamps.value[i], hashes.value[i],
                        sourceSetIds.value[i]);
        assert us[i..][0] == u && us[i..][1..] == us[i + 1..];
        var done := UpdateFeedInternal(u, None, env);
        if !done {
          feeds, index, count := feeds0, index0, count0;
          return false;
        }
        i := i + 1;
      }
      return true;
    }

    method AdminResetFeed(u: Update, env: Env) returns (ok: bool)
      modifies `index, `count, `feeds
      ensures Effect(old(Contents()), Call.AdminResetFeed(u), env) == if ok then Some(Contents()) else None
      ensures !ok ==> Contents() == old(Contents())
    {
      hide Write;
      ok := admin in env.witnesses && ValidInputs(u);
      if ok {
        WriteFeed(RecordOf(u));
      }
    }

    method GetAllPairs() returns (pairs: seq<string>)
      ensures pairs == AllPairs(Contents())
    {
      hide Words.ToByteArray;
      pairs := [];
      var i := 0;
      while i < count
        invariant 0 <= i <= count && |pairs| == i
        invariant forall k :: 0 <= k < i ==> pairs[k] == PairByIndex(Contents(), k)
      {
        var at := Words.ToByteArray(i);
        pairs := pairs + [if at in index then index[at] else ""];
        i := i + 1;
      }
    }
  }

  /** The batch's six arrays are there, and as long as one another. */
  predicate Aligned(pairs: Option<seq<Text>>, roundIds: Option<seq<int>>, prices: Option<seq<int>>,
                    timestamps: Option<seq<int>>, hashes: Option<seq<Text>>, sourceSetIds: Option<seq<int>>)
  {
    && pairs.Some? && pairs.value != []
    && roundIds.Some? && |roundIds.value| == |pairs.value|
    && prices.Some? && |prices.value| == |pairs.value|
    && timestamps.Some? && |timestamps.value| == |pairs.value|
    && hashes.Some? && |hashes.value| == |pairs.value|
    && sourceSetIds.Some? && |sourceSetIds.value| == |pairs.value|
  }

  function Zipped(pairs: seq<Text>, roundIds: seq<int>, prices: seq<int>, timestamps: seq<int>, hashes: seq<Text>,
                  sourceSetIds: seq<int>): (us: seq<Update>)
    requires |pairs| == |roundIds| == |prices| == |timestamps| == |hashes| == |sourceSetIds|
    ensures |us| == |pairs|
  {
    seq(|pairs|, i requires 0 <= i < |pairs| =>
      Update(pairs[i], roundIds[i], prices[i], timestamps[i], hashes[i], sourceSetIds[i]))
  }
}
