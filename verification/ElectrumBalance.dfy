/** Electrum balances and unspent lists of a script over a chain view and a mempool.
    Amounts are mathematical integers. */
module ElectrumBalance {
  import opened Bits
  import opened ElectrumListing

  type Script = string

  datatype Output = Output(script: Script, value: nat)
  datatype Transaction = Transaction(inputs: seq<OutPoint>, outputs: seq<Output>)

  /** Active transactions and where they are, the unspent outputs among theirs, the
      history index, and unspendable scripts. */
  datatype Chain = Chain(
    transactions: map<Txid, Transaction>, place: Txid -> Place, utxos: set<OutPoint>,
    history: Script -> set<Txid>, unspendable: Script -> bool)

  /** Entries, the index from scripts to entries, and per entry the script and value of each input. */
  datatype Mempool = Mempool(
    entries: map<Txid, Transaction>, byScript: Script -> set<Txid>, inputValues: map<Txid, seq<Output>>)

  // ----- Outputs and their owners -----

  predicate HasOutput(txs: map<Txid, Transaction>, o: OutPoint) {
    o.txid in txs && o.vout < |txs[o.txid].outputs|
  }

  function OutputAt(txs: map<Txid, Transaction>, o: OutPoint): Output
    requires HasOutput(txs, o)
  {
    txs[o.txid].outputs[o.vout]
  }

  /** The output an outpoint names, in the mempool or the chain. */
  function Resolve(chain: Chain, pool: Mempool, o: OutPoint): Option<Output> {
    if HasOutput(pool.entries, o) then Some(OutputAt(pool.entries, o))
    else if HasOutput(chain.transactions, o) then Some(OutputAt(chain.transactions, o))
    else None
  }

  function ValueOf(chain: Chain, pool: Mempool, o: OutPoint): nat {
    var output := Resolve(chain, pool, o);
    if output.Some? then output.value.value else 0
  }

  // ----- What the node maintains -----

  ghost predicate ChainConsistent(chain: Chain) {
    && (forall o | o in chain.utxos ::
          HasOutput(chain.transactions, o) && !chain.unspendable(OutputAt(chain.transactions, o).script))
    && (forall o: OutPoint :: HasOutput(chain.transactions, o) ==>
          o.txid in chain.history(OutputAt(chain.transactions, o).script))
  }

  /** An input of an entry: which one, and which input. */
  predicate SpendsAt(pool: Mempool, id: Txid, i: nat, o: OutPoint) {
    id in pool.entries && i < |pool.entries[id].inputs| && pool.entries[id].inputs[i] == o
  }

  /** Entries are unconfirmed and spend, without conflicts, unspent chain outputs
      or outputs of other entries; the indexes cover outputs and resolved inputs. */
  ghost predicate PoolConsistent(chain: Chain, pool: Mempool) {
    && pool.entries.Keys !! chain.transactions.Keys
    && pool.inputValues.Keys == pool.entries.Keys
    && (forall id, i, o :: SpendsAt(pool, id, i, o) ==> o in chain.utxos || HasOutput(pool.entries, o))
    && (forall id, i, id', i', o :: SpendsAt(pool, id, i, o) && SpendsAt(pool, id', i', o) ==> id == id' && i == i')
    && (forall id | id in pool.entries :: InputValuesResolved(chain, pool, id))
    && (forall s, id :: id in pool.byScript(s) <==> Touches(chain, pool, id, s))
  }

  ghost predicate InputValuesResolved(chain: Chain, pool: Mempool, id: Txid)
    requires id in pool.entries && id in pool.inputValues
  {
    var inputs, values := pool.entries[id].inputs, pool.inputValues[id];
    |values| == |inputs| && forall i :: 0 <= i < |inputs| ==> Resolve(chain, pool, inputs[i]) == Some(values[i])
  }

  /** Some output, or some output an input spends, has the script. */
  ghost predicate Touches(chain: Chain, pool: Mempool, id: Txid, s: Script) {
    id in pool.entries
    && ((exists v :: 0 <= v < |pool.entries[id].outputs| && pool.entries[id].outputs[v].script == s)
        || exists i :: 0 <= i < |pool.entries[id].inputs| && SpendsScript(chain, pool, pool.entries[id].inputs[i], s))
  }

  ghost predicate SpendsScript(chain: Chain, pool: Mempool, o: OutPoint, s: Script) {
    var output := Resolve(chain, pool, o);
    output.Some? && output.value.script == s
  }

  ghost predicate Consistent(chain: Chain, pool: Mempool) {
    ChainConsistent(chain) && PoolConsistent(chain, pool)
  }

  // ----- The sets of outpoints involved -----

  function OutPointsOf(txs: map<Txid, Transaction>, ids: set<Txid>, s: Script): set<OutPoint> {
    set id, v | id in ids && id in txs && 0 <= v < |txs[id].outputs| && txs[id].outputs[v].script == s
      :: OutPoint(id, v)
  }

  /** Confirmed outputs of the script that are unspent, or unspendable. */
  function Confirmed(chain: Chain, s: Script): set<OutPoint> {
    set o | o in OutPointsOf(chain.transactions, chain.history(s), s) && (chain.unspendable(s) || o in chain.utxos)
  }

  /** Mempool outputs of the script. */
  function Unconfirmed(pool: Mempool, s: Script): set<OutPoint> {
    OutPointsOf(pool.entries, pool.byScript(s), s)
  }

  /** Everything spent by the entries indexed for the script. */
  function Spent(pool: Mempool, ids: set<Txid>): set<OutPoint> {
    set id, i | id in ids && id in pool.entries && 0 <= i < |pool.entries[id].inputs| :: pool.entries[id].inputs[i]
  }

  /** What `listunspent` selects. */
  function Unspent(chain: Chain, pool: Mempool, s: Script): set<OutPoint> {
    (Confirmed(chain, s) + Unconfirmed(pool, s)) - Spent(pool, pool.byScript(s))
  }

  // ----- Sums over sets -----

  ghost function Total(chain: Chain, pool: Mempool, os: set<OutPoint>): nat {
    if os == {} then 0
    else var o :| o in os; ValueOf(chain, pool, o) + Total(chain, pool, os - {o})
  }

  lemma {:induction false} TotalRemove(chain: Chain, pool: Mempool, os: set<OutPoint>, x: OutPoint)
    requires x in os
    ensures Total(chain, pool, os) == ValueOf(chain, pool, x) + Total(chain, pool, os - {x})
    decreases |os|
  {
    hide ValueOf;
    var o :| o in os && Total(chain, pool, os) == ValueOf(chain, pool, o) + Total(chain, pool, os - {o});
    if o != x {
      TotalRemove(chain, pool, os - {o}, x);
      TotalRemove(chain, pool, os - {x}, o);
      assert os - {o} - {x} == os - {x} - {o};
    }
  }

  lemma TotalAdd(chain: Chain, pool: Mempool, os: set<OutPoint>, x: OutPoint)
    requires x !in os
    ensures Total(chain, pool, os + {x}) == Total(chain, pool, os) + ValueOf(chain, pool, x)
  {
    TotalRemove(chain, pool, os + {x}, x);
    assert os + {x} - {x} == os;
  }

  lemma {:induction false} TotalUnion(chain: Chain, pool: Mempool, a: set<OutPoint>, b: set<OutPoint>)
    requires a !! b
    ensures Total(chain, pool, a + b) == Total(chain, pool, a) + Total(chain, pool, b)
    decreases |b|
  {
    hide ValueOf;
    if b == {} {
      assert a + b == a;
    } else {
      var x :| x in b;
      TotalUnion(chain, pool, a, b - {x});
      TotalRemove(chain, pool, b, x);
      TotalAdd(chain, pool, a + (b - {x}), x);
      assert a + (b - {x}) + {x} == a + b;
    }
  }

  // ----- Agreement -----

  /** The script's outputs that mempool entries spend. */
  ghost function SpentOfScript(chain: Chain, pool: Mempool, s: Script): set<OutPoint> {
    set o | o in Spent(pool, pool.byScript(s)) && SpendsScript(chain, pool, o, s)
  }

  /** Spent outputs of the script are among its confirmed and unconfirmed ones. */
  lemma SpentAreOwned(chain: Chain, pool: Mempool, s: Script)
    requires Consistent(chain, pool)
    ensures Confirmed(chain, s) !! Unconfirmed(pool, s)
    ensures SpentOfScript(chain, pool, s) <= Confirmed(chain, s) + Unconfirmed(pool, s)
    ensures Unspent(chain, pool, s) == Confirmed(chain, s) + Unconfirmed(pool, s) - SpentOfScript(chain, pool, s)
  {
    forall o | o in SpentOfScript(chain, pool, s) ensures o in Confirmed(chain, s) + Unconfirmed(pool, s) {
      SpentIsOwned(chain, pool, s, o);
    }
    forall o | o in Confirmed(chain, s) + Unconfirmed(pool, s) ensures SpendsScript(chain, pool, o, s) {
      OwnedResolves(chain, pool, s, o);
    }
  }

  lemma SpentIsOwned(chain: Chain, pool: Mempool, s: Script, o: OutPoint)
    requires Consistent(chain, pool) && o in SpentOfScript(chain, pool, s)
    ensures o in Confirmed(chain, s) || o in Unconfirmed(pool, s)
  {
    var id, i :| id in pool.byScript(s) && id in pool.entries && 0 <= i < |pool.entries[id].inputs|
                 && pool.entries[id].inputs[i] == o;
    assert SpendsAt(pool, id, i, o);
    if HasOutput(pool.entries, o) {
      assert Touches(chain, pool, o.txid, s) by { assert pool.entries[o.txid].outputs[o.vout].script == s; }
      assert o.txid in pool.byScript(s);
      assert OutPoint(o.txid, o.vout) in Unconfirmed(pool, s);
    } else {
      assert o in chain.utxos && OutputAt(chain.transactions, o).script == s;
      assert OutPoint(o.txid, o.vout) in OutPointsOf(chain.transactions, chain.history(s), s);
    }
  }

  lemma OwnedResolves(chain: Chain, pool: Mempool, s: Script, o: OutPoint)
    requires Consistent(chain, pool) && o in Confirmed(chain, s) + Unconfirmed(pool, s)
    ensures SpendsScript(chain, pool, o, s)
    ensures o in Confirmed(chain, s) ==> o.txid !in pool.entries
  {
  }

  /** An output is unspent when it belongs to the script, stands in a mempool entry or is unspent or
      unspendable in the chain, and no entry of the mempool spends it. The indexes do not matter. */
  ghost predicate IsUnspent(chain: Chain, pool: Mempool, s: Script, o: OutPoint) {
    && SpendsScript(chain, pool, o, s)
    && (HasOutput(pool.entries, o) || o in chain.utxos || chain.unspendable(s))
    && forall id, i :: !SpendsAt(pool, id, i, o)
  }

  lemma UnspentIff(chain: Chain, pool: Mempool, s: Script, o: OutPoint)
    requires Consistent(chain, pool)
    ensures o in Unspent(chain, pool, s) <==> IsUnspent(chain, pool, s, o)
  {
    hide OutPointsOf;
    if o in Unspent(chain, pool, s) {
      OwnedResolves(chain, pool, s, o);
      UnspentStands(chain, pool, s, o);
      forall id, i ensures !SpendsAt(pool, id, i, o) {
        if SpendsAt(pool, id, i, o) {
          SpenderIsIndexed(chain, pool, s, id, i, o);
        }
      }
    }
    if IsUnspent(chain, pool, s, o) {
      StandsAmong(chain, pool, s, o);
      if o in Spent(pool, pool.byScript(s)) {
        SpentHasSpender(pool, pool.byScript(s), o);
      }
    }
  }

  lemma SpentHasSpender(pool: Mempool, ids: set<Txid>, o: OutPoint)
    requires o in Spent(pool, ids)
    ensures exists id, i :: SpendsAt(pool, id, i, o)
  {
    var id, i :| id in ids && id in pool.entries && 0 <= i < |pool.entries[id].inputs|
                 && pool.entries[id].inputs[i] == o;
    assert SpendsAt(pool, id, i, o);
  }

  lemma UnspentStands(chain: Chain, pool: Mempool, s: Script, o: OutPoint)
    requires o in Confirmed(chain, s) + Unconfirmed(pool, s)
    ensures HasOutput(pool.entries, o) || o in chain.utxos || chain.unspendable(s)
  {
  }

  lemma SpenderIsIndexed(chain: Chain, pool: Mempool, s: Script, id: Txid, i: nat, o: OutPoint)
    requires Consistent(chain, pool) && SpendsAt(pool, id, i, o) && SpendsScript(chain, pool, o, s)
    ensures o in Spent(pool, pool.byScript(s))
  {
    assert Touches(chain, pool, id, s);
    assert id in pool.byScript(s);
  }

  lemma StandsAmong(chain: Chain, pool: Mempool, s: Script, o: OutPoint)
    requires Consistent(chain, pool) && SpendsScript(chain, pool, o, s)
    requires HasOutput(pool.entries, o) || o in chain.utxos || chain.unspendable(s)
    ensures o in Confirmed(chain, s) + Unconfirmed(pool, s)
  {
    if HasOutput(pool.entries, o) {
      assert Touches(chain, pool, o.txid, s) by { assert pool.entries[o.txid].outputs[o.vout].script == s; }
      assert OutPoint(o.txid, o.vout) in Unconfirmed(pool, s);
    } else {
      assert OutPoint(o.txid, o.vout) in OutPointsOf(chain.transactions, chain.history(s), s);
    }
  }

  /** For every script the unspent list adds up to confirmed plus unconfirmed balance. */
  lemma BalanceAgreement(chain: Chain, pool: Mempool, s: Script)
    requires Consistent(chain, pool)
    ensures Total(chain, pool, Unspent(chain, pool, s))
      == Total(chain, pool, Confirmed(chain, s))
         + (Total(chain, pool, Unconfirmed(pool, s)) - Total(chain, pool, SpentOfScript(chain, pool, s)))
  {
    hide Consistent, Confirmed, Unconfirmed, SpentOfScript, Unspent, Total;
    SpentAreOwned(chain, pool, s);
    TotalUnion(chain, pool, Confirmed(chain, s), Unconfirmed(pool, s));
    TotalUnion(chain, pool, Unspent(chain, pool, s), SpentOfScript(chain, pool, s));
    assert Unspent(chain, pool, s) + SpentOfScript(chain, pool, s) == Confirmed(chain, s) + Unconfirmed(pool, s);
  }

  // ----- The queries -----

  /** The outputs of the script among the given transactions, with their values. */
  method OutputsAmong(txs: map<Txid, Transaction>, among: set<Txid>, s: Script) returns (found: map<OutPoint, nat>)
    ensures found.Keys == OutPointsOf(txs, among, s)
    ensures forall o | o in found :: HasOutput(txs, o) && found[o] == OutputAt(txs, o).value
  {
    hide OutPointsOf;
    found := map[];
    var ids := among;
    NoOutPoints(txs, s);
    assert among - ids == {};
    while ids != {}
      invariant ids <= among && found.Keys == OutPointsOf(txs, among - ids, s)
      invariant forall o | o in found :: HasOutput(txs, o) && found[o] == OutputAt(txs, o).value
      decreases |ids|
    {
      var id :| id in ids;
      ghost var done := among - ids;
      OutPointsStep(txs, done, id, s);
      if id in txs {
        var more := ScriptOutputs(txs, id, s);
        found := found + more;
      }
      ids := ids - {id};
      assert among - ids == done + {id};
    }
    assert among - ids == among;
  }

  lemma NoOutPoints(txs: map<Txid, Transaction>, s: Script)
    ensures OutPointsOf(txs, {}, s) == {}
  {
  }

  /** What a list tells of a confirmed output. */
  predicate Describes(chain: Chain, e: Located) {
    HasOutput(chain.transactions, e.outpoint)
    && e.place == chain.place(e.outpoint.txid) && e.value == OutputAt(chain.transactions, e.outpoint).value
  }

  lemma ConfirmedAreCandidates(chain: Chain, s: Script)
    ensures Confirmed(chain, s) - OutPointsOf(chain.transactions, chain.history(s), s) == {}
  {
  }

  /** Going on from one candidate to the next. */
  lemma ConfirmedStep(chain: Chain, s: Script, rest: set<OutPoint>, o: OutPoint)
    requires o in rest && rest <= OutPointsOf(chain.transactions, chain.history(s), s)
    ensures Confirmed(chain, s) - (rest - {o})
      == Confirmed(chain, s) - rest + if chain.unspendable(s) || o in chain.utxos then {o} else {}
  {
    hide OutPointsOf;
  }

  /** The given outputs in chain order. */
  ghost predicate Lists(chain: Chain, items: seq<Located>, points: set<OutPoint>) {
    Sorted(items) && Distinct(items) && OutPoints(items) == points && forall e | e in items :: Describes(chain, e)
  }

  lemma ListsPoints(chain: Chain, items: seq<Located>, points: set<OutPoint>)
    requires Lists(chain, items, points)
    ensures OutPoints(items) == points
  {
  }

  /** An output of the script in a transaction of its history, unspent unless the script is unspendable. */
  ghost predicate IsConfirmed(chain: Chain, s: Script, o: OutPoint) {
    && o.txid in chain.history(s) && HasOutput(chain.transactions, o) && OutputAt(chain.transactions, o).script == s
    && (o in chain.utxos || chain.unspendable(s))
  }

  lemma ConfirmedIff(chain: Chain, s: Script, o: OutPoint)
    ensures o in Confirmed(chain, s) <==> IsConfirmed(chain, s, o)
  {
    if IsConfirmed(chain, s, o) {
      assert OutPoint(o.txid, o.vout) in OutPointsOf(chain.transactions, chain.history(s), s);
    }
  }

  lemma NothingListed(chain: Chain)
    ensures Lists(chain, [], {})
  {
  }

  method AddLocated(chain: Chain, items: seq<Located>, ghost points: set<OutPoint>, x: Located)
    returns (r: seq<Located>)
    requires Lists(chain, items, points) && x.outpoint !in points && Describes(chain, x)
    ensures Lists(chain, r, points + {x.outpoint})
  {
    hide Sorted, Distinct, OutPoints, Describes;
    ghost var k;
    r, k := InsertSorted(items, x);
    Inserted(items, x, k);
  }

  /** The confirmed outputs of a script in chain order: unspent ones, and all of an
      unspendable script. Too long a history is an error. */
  method ConfirmedUnspentForScript(chain: Chain, s: Script, limit: nat) returns (r: Option<seq<Located>>)
    ensures r.None? <==> |chain.history(s)| > limit
    ensures r.Some? ==> Lists(chain, r.value, Confirmed(chain, s))
    ensures r.Some? ==> forall o :: o in OutPoints(r.value) <==> IsConfirmed(chain, s, o)
  {
    hide OutPointsOf, Lists, Confirmed, IsConfirmed;
    if |chain.history(s)| > limit {
      return None;
    }
    var candidates := OutputsAmong(chain.transactions, chain.history(s), s);
    var outputs, rest := [], candidates.Keys;
    ConfirmedAreCandidates(chain, s);
    NothingListed(chain);
    while rest != {}
      invariant rest <= candidates.Keys && Lists(chain, outputs, Confirmed(chain, s) - rest)
      decreases |rest|
    {
      var o :| o in rest;
      ConfirmedStep(chain, s, rest, o);
      if chain.unspendable(s) || o in chain.utxos {
        outputs := AddLocated(chain, outputs, Confirmed(chain, s) - rest,
                              Located(o, chain.place(o.txid), candidates[o]));
      } else {
        assert Confirmed(chain, s) - rest + {} == Confirmed(chain, s) - rest;
      }
      rest := rest - {o};
    }
    assert Confirmed(chain, s) - rest == Confirmed(chain, s);
    ListsPoints(chain, outputs, Confirmed(chain, s));
    forall o ensures o in Confirmed(chain, s) <==> IsConfirmed(chain, s, o) { ConfirmedIff(chain, s, o); }
    return Some(outputs);
  }

  lemma OutPointsStep(txs: map<Txid, Transaction>, done: set<Txid>, id: Txid, s: Script)
    ensures OutPointsOf(txs, done + {id}, s) == OutPointsOf(txs, done, s) + OutPointsOf(txs, {id}, s)
    ensures id !in done ==> OutPointsOf(txs, done, s) !! OutPointsOf(txs, {id}, s)
    ensures id !in txs ==> OutPointsOf(txs, {id}, s) == {}
  {
  }

  /** One transaction's outputs of the script. */
  method ScriptOutputs(txs: map<Txid, Transaction>, id: Txid, s: Script) returns (found: map<OutPoint, nat>)
    requires id in txs
    ensures found.Keys == OutPointsOf(txs, {id}, s)
    ensures forall o | o in found :: HasOutput(txs, o) && found[o] == OutputAt(txs, o).value
  {
    found := map[];
    var outputs := txs[id].outputs;
    for vout := 0 to |outputs|
      invariant found.Keys == set o | o in OutPointsOf(txs, {id}, s) && o.vout < vout
      invariant forall o | o in found :: HasOutput(txs, o) && found[o] == OutputAt(txs, o).value
    {
      if outputs[vout].script == s {
        var o := OutPoint(id, vout);
        assert o in OutPointsOf(txs, {id}, s);
        found := found[o := outputs[vout].value];
      }
    }
  }

  /** Adds up listed values. */
  method SumValues(outputs: map<OutPoint, nat>, ghost chain: Chain, ghost pool: Mempool) returns (sum: nat)
    requires forall o | o in outputs :: outputs[o] == ValueOf(chain, pool, o)
    ensures sum == Total(chain, pool, outputs.Keys)
  {
    hide ValueOf, Total;
    sum := 0;
    var rest := outputs;
    EmptyTotal(chain, pool);
    while rest != map[]
      invariant rest.Keys <= outputs.Keys && forall o | o in rest :: rest[o] == ValueOf(chain, pool, o)
      invariant sum + Total(chain, pool, rest.Keys) == Total(chain, pool, outputs.Keys)
      decreases |rest|
    {
      var o :| o in rest;
      TotalRemove(chain, pool, rest.Keys, o);
      assert (rest - {o}).Keys == rest.Keys - {o};
      assert |(rest - {o}).Keys| < |rest.Keys|;
      sum := sum + rest[o];
      rest := rest - {o};
    }
    assert rest.Keys == {};
  }

  /** Adds up a list of confirmed outputs. */
  method SumLocated(items: seq<Located>, ghost chain: Chain, ghost pool: Mempool) returns (sum: nat)
    requires Distinct(items) && forall e | e in items :: e.value == ValueOf(chain, pool, e.outpoint)
    ensures sum == Total(chain, pool, OutPoints(items))
  {
    hide ValueOf, Total;
    sum := 0;
    EmptyTotal(chain, pool);
    assert OutPoints(items[..0]) == {};
    for i := 0 to |items|
      invariant sum == Total(chain, pool, OutPoints(items[..i]))
    {
      assert OutPoints(items[..i + 1]) == OutPoints(items[..i]) + {items[i].outpoint};
      TotalAdd(chain, pool, OutPoints(items[..i]), items[i].outpoint);
      sum := sum + items[i].value;
    }
    assert items[..|items|] == items;
  }

  lemma EmptyTotal(chain: Chain, pool: Mempool)
    ensures Total(chain, pool, {}) == 0
  {
  }

  /** Outputs of the script among the first `k` inputs of an entry. */
  ghost function ScriptInputs(chain: Chain, pool: Mempool, id: Txid, s: Script, k: nat): set<OutPoint>
    requires id in pool.entries && k <= |pool.entries[id].inputs|
  {
    set i | 0 <= i < k && SpendsScript(chain, pool, pool.entries[id].inputs[i], s) :: pool.entries[id].inputs[i]
  }

  /** What an entry spends of the script, from the values recorded at admission. */
  method InputValueForScript(ghost chain: Chain, pool: Mempool, id: Txid, s: Script) returns (sum: nat)
    requires Consistent(chain, pool) && id in pool.entries
    ensures sum == Total(chain, pool, ScriptInputs(chain, pool, id, s, |pool.entries[id].inputs|))
  {
    hide Total;
    EmptyTotal(chain, pool);
    sum := 0;
    var values := pool.inputValues[id];
    assert InputValuesResolved(chain, pool, id);
    assert ScriptInputs(chain, pool, id, s, 0) == {};
    for i := 0 to |values|
      invariant sum == Total(chain, pool, ScriptInputs(chain, pool, id, s, i))
    {
      InputStep(chain, pool, id, s, i);
      assert Resolve(chain, pool, pool.entries[id].inputs[i]) == Some(values[i]);
      assert ScriptInputs(chain, pool, id, s, i) + {} == ScriptInputs(chain, pool, id, s, i);
      if values[i].script == s {
        TotalAdd(chain, pool, ScriptInputs(chain, pool, id, s, i), pool.entries[id].inputs[i]);
        sum := sum + values[i].value;
      }
    }
  }

  lemma InputStep(chain: Chain, pool: Mempool, id: Txid, s: Script, i: nat)
    requires Consistent(chain, pool) && id in pool.entries && i < |pool.entries[id].inputs|
    ensures var o := pool.entries[id].inputs[i];
      ScriptInputs(chain, pool, id, s, i + 1)
      == ScriptInputs(chain, pool, id, s, i) + (if SpendsScript(chain, pool, o, s) then {o} else {})
    ensures pool.entries[id].inputs[i] !in ScriptInputs(chain, pool, id, s, i)
  {
    var inputs := pool.entries[id].inputs;
    if inputs[i] in ScriptInputs(chain, pool, id, s, i) {
      var j :| 0 <= j < i && inputs[j] == inputs[i];
      assert SpendsAt(pool, id, i, inputs[i]) && SpendsAt(pool, id, j, inputs[i]);
    }
  }

  ghost function SpentBy(chain: Chain, pool: Mempool, ids: set<Txid>, s: Script): set<OutPoint> {
    set o | o in Spent(pool, ids) && SpendsScript(chain, pool, o, s)
  }

  lemma SpentStep(chain: Chain, pool: Mempool, done: set<Txid>, id: Txid, s: Script)
    requires Consistent(chain, pool) && id in pool.entries && id !in done
    ensures var mine := ScriptInputs(chain, pool, id, s, |pool.entries[id].inputs|);
      && SpentBy(chain, pool, done + {id}, s) == SpentBy(chain, pool, done, s) + mine
      && SpentBy(chain, pool, done, s) !! mine
  {
    var mine := ScriptInputs(chain, pool, id, s, |pool.entries[id].inputs|);
    forall o | o in mine ensures o !in SpentBy(chain, pool, done, s) {
      if o in SpentBy(chain, pool, done, s) {
        var i :| 0 <= i < |pool.entries[id].inputs| && pool.entries[id].inputs[i] == o;
        var id', j :| id' in done && id' in pool.entries && 0 <= j < |pool.entries[id'].inputs|
                      && pool.entries[id'].inputs[j] == o;
        assert SpendsAt(pool, id, i, o) && SpendsAt(pool, id', j, o);
      }
    }
  }

  /** Confirmed and unconfirmed balance; too long a history or too many indexed entries are an error. */
  method BalanceForScript(chain: Chain, pool: Mempool, s: Script, limit: nat) returns (r: Option<(nat, int)>)
    requires Consistent(chain, pool)
    ensures r.None? <==> |chain.history(s)| > limit || |pool.byScript(s)| > limit
    ensures r.Some? ==> r.value.0 == Total(chain, pool, Confirmed(chain, s))
    ensures r.Some? ==>
      r.value.1 == Total(chain, pool, Unconfirmed(pool, s)) - Total(chain, pool, SpentOfScript(chain, pool, s))
    ensures r.Some? ==> r.value.0 + r.value.1 == Total(chain, pool, Unspent(chain, pool, s))
  {
    hide Total;
    EmptyTotal(chain, pool);
    BalanceAgreement(chain, pool, s);
    var listed := ConfirmedUnspentForScript(chain, s, limit);
    if listed.None? {
      return None;
    }
    LocatedValues(chain, pool, s, listed.value);
    var confirmed := SumLocated(listed.value, chain, pool);
    if |pool.byScript(s)| > limit {
      return None;
    }
    var unconfirmed := SumEntries(chain, pool, s);
    return Some((confirmed, unconfirmed));
  }

  lemma LocatedValues(chain: Chain, pool: Mempool, s: Script, items: seq<Located>)
    requires Consistent(chain, pool) && Lists(chain, items, OutPoints(items)) && OutPoints(items) <= Confirmed(chain, s)
    ensures forall e | e in items :: e.value == ValueOf(chain, pool, e.outpoint)
  {
    hide Consistent, Confirmed;
    forall e | e in items ensures e.value == ValueOf(chain, pool, e.outpoint) {
      assert e.outpoint in OutPoints(items);
      OwnedResolves(chain, pool, s, e.outpoint);
    }
  }

  method SumEntries(ghost chain: Chain, pool: Mempool, s: Script) returns (unconfirmed: int)
    requires Consistent(chain, pool)
    ensures unconfirmed
      == Total(chain, pool, Unconfirmed(pool, s)) - Total(chain, pool, SpentOfScript(chain, pool, s))
  {
    hide Total, Consistent;
    EmptyTotal(chain, pool);
    unconfirmed := 0;
    var all := pool.byScript(s);
    var ids := all;
    assert SpentBy(chain, pool, all - ids, s) == {} && OutPointsOf(pool.entries, all - ids, s) == {};
    while ids != {}
      invariant ids <= all
      invariant unconfirmed == Total(chain, pool, OutPointsOf(pool.entries, all - ids, s))
                               - Total(chain, pool, SpentBy(chain, pool, all - ids, s))
      decreases |ids|
    {
      var id :| id in ids;
      ghost var done := all - ids;
      IndexedIsEntry(chain, pool, s, id);
      OutPointsStep(pool.entries, done, id, s);
      SpentStep(chain, pool, done, id, s);
      var spent := InputValueForScript(chain, pool, id, s);
      var outputs := ScriptOutputs(pool.entries, id, s);
      var received := SumValues(outputs, chain, pool);
      TotalUnion(chain, pool, OutPointsOf(pool.entries, done, s), outputs.Keys);
      TotalUnion(chain, pool, SpentBy(chain, pool, done, s),
                 ScriptInputs(chain, pool, id, s, |pool.entries[id].inputs|));
      unconfirmed := unconfirmed - spent + received;
      ids := ids - {id};
      assert all - ids == done + {id};
    }
    assert all - ids == all;
    assert SpentBy(chain, pool, all, s) == SpentOfScript(chain, pool, s);
  }

  lemma IndexedIsEntry(chain: Chain, pool: Mempool, s: Script, id: Txid)
    requires Consistent(chain, pool) && id in pool.byScript(s)
    ensures id in pool.entries
  {
    assert Touches(chain, pool, id, s);
  }

  // ----- The unspent list -----

  function Told(items: seq<Located>): (r: seq<Listed>)
    ensures |r| == |items|
  {
    seq(|items|, i requires 0 <= i < |items| => Listed(items[i].outpoint, items[i].place.height, items[i].value))
  }

  /** The first `k` outputs of an entry, in order, that belong to the script and are not spent. */
  function EntryOutputs(tx: Transaction, id: Txid, s: Script, spent: set<OutPoint>, k: nat): seq<Listed>
    requires k <= |tx.outputs|
  {
    if k == 0 then []
    else
      var o := OutPoint(id, k - 1);
      EntryOutputs(tx, id, s, spent, k - 1)
      + if tx.outputs[k - 1].script == s && o !in spent then [Listed(o, 0, tx.outputs[k - 1].value)] else []
  }

  /** Entry by entry. */
  function EntriesOutputs(pool: Mempool, order: seq<Txid>, s: Script, spent: set<OutPoint>): seq<Listed>
    requires forall id | id in order :: id in pool.entries
  {
    if order == [] then []
    else
      var id := order[|order| - 1];
      EntriesOutputs(pool, order[..|order| - 1], s, spent)
      + EntryOutputs(pool.entries[id], id, s, spent, |pool.entries[id].outputs|)
  }

  ghost function Ids(order: seq<Txid>): set<Txid> { set id | id in order }

  lemma IdsAppend(order: seq<Txid>, id: Txid)
    ensures Ids(order + [id]) == Ids(order) + {id} && Ids([]) == {}
  {
  }

  ghost predicate NoRepeats(order: seq<Txid>) {
    forall i, j :: 0 <= i < j < |order| ==> order[i] != order[j]
  }

  /** The confirmed unspent outputs in chain order, then the mempool's entry by entry. */
  ghost predicate IsListing(chain: Chain, pool: Mempool, s: Script,
                            confirmed: seq<Located>, order: seq<Txid>, listing: seq<Listed>)
  {
    var spent := Spent(pool, pool.byScript(s));
    && Lists(chain, confirmed, Confirmed(chain, s) - spent)
    && NoRepeats(order) && Ids(order) == pool.byScript(s) && (forall id | id in order :: id in pool.entries)
    && listing == Told(confirmed) + EntriesOutputs(pool, order, s, spent)
  }

  ghost function ListedPoints(items: seq<Listed>): set<OutPoint> {
    set i | 0 <= i < |items| :: items[i].outpoint
  }

  ghost function ListedTotal(items: seq<Listed>): nat {
    if items == [] then 0 else ListedTotal(items[..|items| - 1]) + items[|items| - 1].value
  }

  /** Every output once, with its value. */
  ghost predicate Accounts(chain: Chain, pool: Mempool, items: seq<Listed>) {
    && (forall i, j :: 0 <= i < j < |items| ==> items[i].outpoint != items[j].outpoint)
    && forall e | e in items :: e.value == ValueOf(chain, pool, e.outpoint)
  }

  lemma {:induction false} ListedTotalIsTotal(chain: Chain, pool: Mempool, items: seq<Listed>)
    requires Accounts(chain, pool, items)
    ensures ListedTotal(items) == Total(chain, pool, ListedPoints(items))
  {
    hide ValueOf, Total;
    EmptyTotal(chain, pool);
    if items == [] {
      assert ListedPoints(items) == {};
    } else {
      var rest, last := items[..|items| - 1], items[|items| - 1];
      ListedTotalIsTotal(chain, pool, rest);
      assert ListedPoints(items) == ListedPoints(rest) + {last.outpoint};
      TotalAdd(chain, pool, ListedPoints(rest), last.outpoint);
    }
  }

  /** Two lists without an output in common. */
  lemma AccountsConcat(chain: Chain, pool: Mempool, a: seq<Listed>, b: seq<Listed>)
    requires Accounts(chain, pool, a) && Accounts(chain, pool, b) && ListedPoints(a) !! ListedPoints(b)
    ensures Accounts(chain, pool, a + b) && ListedPoints(a + b) == ListedPoints(a) + ListedPoints(b)
  {
    hide ValueOf;
    var all := a + b;
    assert forall i :: 0 <= i < |a| ==> all[i] == a[i];
    assert forall i :: 0 <= i < |b| ==> all[|a| + i] == b[i];
    assert forall i :: 0 <= i < |a| ==> a[i].outpoint in ListedPoints(a);
    assert forall i :: 0 <= i < |b| ==> b[i].outpoint in ListedPoints(b);
    forall o | o in ListedPoints(a) + ListedPoints(b) ensures o in ListedPoints(all) {
      if o in ListedPoints(a) {
        var i :| 0 <= i < |a| && a[i].outpoint == o;
        assert all[i].outpoint == o;
      } else {
        var i :| 0 <= i < |b| && b[i].outpoint == o;
        assert all[|a| + i].outpoint == o;
      }
    }
  }

  ghost function OutPointsBelow(tx: Transaction, id: Txid, s: Script, k: nat): set<OutPoint>
    requires k <= |tx.outputs|
  {
    set v | 0 <= v < k && tx.outputs[v].script == s :: OutPoint(id, v)
  }

  lemma {:induction false} EntryAccounts(chain: Chain, pool: Mempool, id: Txid, s: Script, spent: set<OutPoint>, k: nat)
    requires id in pool.entries && k <= |pool.entries[id].outputs|
    ensures var items := EntryOutputs(pool.entries[id], id, s, spent, k);
      Accounts(chain, pool, items) && ListedPoints(items) == OutPointsBelow(pool.entries[id], id, s, k) - spent
  {
    var tx := pool.entries[id];
    if k > 0 {
      EntryAccounts(chain, pool, id, s, spent, k - 1);
      var o := OutPoint(id, k - 1);
      assert OutPointsBelow(tx, id, s, k)
        == OutPointsBelow(tx, id, s, k - 1) + if tx.outputs[k - 1].script == s then {o} else {};
      var last := [Listed(o, 0, tx.outputs[k - 1].value)];
      assert ListedPoints(last) == {o} by { assert last[0].outpoint == o; }
      assert Accounts(chain, pool, last);
      var rest := EntryOutputs(tx, id, s, spent, k - 1);
      assert rest + [] == rest;
      hide EntryOutputs, Accounts;
      if o !in OutPointsBelow(tx, id, s, k - 1) {
        AccountsConcat(chain, pool, rest, last);
      }
    }
  }

  lemma OnlyEntry(txs: map<Txid, Transaction>, id: Txid, s: Script)
    requires id in txs
    ensures OutPointsOf(txs, {id}, s) == OutPointsBelow(txs[id], id, s, |txs[id].outputs|)
  {
  }

  lemma {:induction false} EntriesAccount(chain: Chain, pool: Mempool, order: seq<Txid>, s: Script,
                                          spent: set<OutPoint>)
    requires NoRepeats(order) && forall id | id in order :: id in pool.entries
    ensures var items := EntriesOutputs(pool, order, s, spent);
      && Accounts(chain, pool, items)
      && ListedPoints(items) == OutPointsOf(pool.entries, Ids(order), s) - spent
  {
    hide Accounts, OutPointsOf, OutPointsBelow, EntryOutputs, ListedPoints;
    NoOutPoints(pool.entries, s);
    if order == [] {
      NothingAccounts(chain, pool);
      assert Ids(order) == {};
    } else {
      var rest, id := order[..|order| - 1], order[|order| - 1];
      var done := Ids(rest);
      EntriesAccount(chain, pool, rest, s, spent);
      EntryAccounts(chain, pool, id, s, spent, |pool.entries[id].outputs|);
      OnlyEntry(pool.entries, id, s);
      OutPointsStep(pool.entries, done, id, s);
      assert order == rest + [id];
      IdsAppend(rest, id);
      AccountsConcat(chain, pool, EntriesOutputs(pool, rest, s, spent),
                     EntryOutputs(pool.entries[id], id, s, spent, |pool.entries[id].outputs|));
    }
  }

  lemma NothingAccounts(chain: Chain, pool: Mempool)
    ensures Accounts(chain, pool, []) && ListedPoints([]) == {}
  {
  }

  lemma ToldAccounts(chain: Chain, pool: Mempool, items: seq<Located>)
    requires Distinct(items) && forall e | e in items :: e.value == ValueOf(chain, pool, e.outpoint)
    ensures Accounts(chain, pool, Told(items)) && ListedPoints(Told(items)) == OutPoints(items)
  {
    hide ValueOf;
    var told := Told(items);
    assert forall i :: 0 <= i < |items| ==> told[i].outpoint == items[i].outpoint;
    forall e | e in told ensures e.value == ValueOf(chain, pool, e.outpoint) {
      var i :| 0 <= i < |told| && told[i] == e;
      assert items[i] in items;
    }
  }

  /** Mempool outputs have height zero, confirmed ones the height of their block. */
  ghost predicate HeightTold(chain: Chain, pool: Mempool, e: Listed) {
    e.height == if HasOutput(pool.entries, e.outpoint) then 0 else chain.place(e.outpoint.txid).height
  }

  lemma ToldHeights(chain: Chain, pool: Mempool, s: Script, items: seq<Located>)
    requires Consistent(chain, pool) && Lists(chain, items, OutPoints(items)) && OutPoints(items) <= Confirmed(chain, s)
    ensures forall e | e in Told(items) :: HeightTold(chain, pool, e)
  {
    hide Consistent, Confirmed;
    forall e | e in Told(items) ensures HeightTold(chain, pool, e) {
      var i :| 0 <= i < |items| && Told(items)[i] == e;
      assert items[i] in items && items[i].outpoint in OutPoints(items);
      OwnedResolves(chain, pool, s, e.outpoint);
    }
  }

  lemma {:induction false} EntryHeights(chain: Chain, pool: Mempool, id: Txid, s: Script, spent: set<OutPoint>, k: nat)
    requires id in pool.entries && k <= |pool.entries[id].outputs|
    ensures forall e | e in EntryOutputs(pool.entries[id], id, s, spent, k) :: HeightTold(chain, pool, e)
  {
    if k > 0 {
      EntryHeights(chain, pool, id, s, spent, k - 1);
    }
  }

  lemma {:induction false} EntriesHeights(chain: Chain, pool: Mempool, order: seq<Txid>, s: Script,
                                          spent: set<OutPoint>)
    requires forall id | id in order :: id in pool.entries
    ensures forall e | e in EntriesOutputs(pool, order, s, spent) :: HeightTold(chain, pool, e)
  {
    hide EntryOutputs, HeightTold;
    if order != [] {
      var id := order[|order| - 1];
      EntriesHeights(chain, pool, order[..|order| - 1], s, spent);
      EntryHeights(chain, pool, id, s, spent, |pool.entries[id].outputs|);
    }
  }

  /** The list holds every unspent output once, with its value, and adds up to the balance. */
  lemma ListingIsUnspent(chain: Chain, pool: Mempool, s: Script,
                         confirmed: seq<Located>, order: seq<Txid>, listing: seq<Listed>)
    requires Consistent(chain, pool) && IsListing(chain, pool, s, confirmed, order, listing)
    ensures Accounts(chain, pool, listing) && ListedPoints(listing) == Unspent(chain, pool, s)
    ensures forall e | e in listing :: HeightTold(chain, pool, e)
    ensures ListedTotal(listing) == Total(chain, pool, Unspent(chain, pool, s))
  {
    hide Consistent, Accounts, OutPointsOf, Spent, Confirmed, ListedPoints, Told, EntriesOutputs, Total, Describes,
         Sorted, Distinct, OutPoints;
    var spent := Spent(pool, pool.byScript(s));
    LocatedValues(chain, pool, s, confirmed);
    ToldAccounts(chain, pool, confirmed);
    EntriesAccount(chain, pool, order, s, spent);
    SpentAreOwned(chain, pool, s);
    AccountsConcat(chain, pool, Told(confirmed), EntriesOutputs(pool, order, s, spent));
    ToldHeights(chain, pool, s, confirmed);
    EntriesHeights(chain, pool, order, s, spent);
    ListedTotalIsTotal(chain, pool, listing);
  }

  /** The outputs that are not spent, in chain order. */
  method KeepUnspent(chain: Chain, items: seq<Located>, spent: set<OutPoint>) returns (r: seq<Located>)
    requires Lists(chain, items, OutPoints(items))
    ensures Lists(chain, r, OutPoints(items) - spent)
  {
    assert Distinct(items) && forall e | e in items :: Describes(chain, e);
    hide Lists, Describes, Distinct, OutPoints;
    r := [];
    NothingListed(chain);
    NoOutPointsYet(items);
    for i := 0 to |items|
      invariant Lists(chain, r, OutPoints(items[..i]) - spent)
    {
      OutPointsLast(items, i, spent);
      if items[i].outpoint !in spent {
        r := AddLocated(chain, r, OutPoints(items[..i]) - spent, items[i]);
      }
    }
    assert items[..|items|] == items;
  }

  lemma NoOutPointsYet(items: seq<Located>)
    ensures OutPoints(items[..0]) == {}
  {
  }

  lemma OutPointsLast(items: seq<Located>, i: nat, spent: set<OutPoint>)
    requires i < |items| && Distinct(items)
    ensures items[i].outpoint !in OutPoints(items[..i])
    ensures OutPoints(items[..i + 1]) - spent
      == OutPoints(items[..i]) - spent + (if items[i].outpoint in spent then {} else {items[i].outpoint})
    ensures items[i].outpoint in spent ==> OutPoints(items[..i + 1]) - spent == OutPoints(items[..i]) - spent
  {
    assert OutPoints(items[..i + 1]) == OutPoints(items[..i]) + {items[i].outpoint};
  }

  method ListEntry(tx: Transaction, id: Txid, s: Script, spent: set<OutPoint>) returns (items: seq<Listed>)
    ensures items == EntryOutputs(tx, id, s, spent, |tx.outputs|)
  {
    items := [];
    for vout := 0 to |tx.outputs|
      invariant items == EntryOutputs(tx, id, s, spent, vout)
    {
      if tx.outputs[vout].script == s && OutPoint(id, vout) !in spent {
        items := items + [Listed(OutPoint(id, vout), 0, tx.outputs[vout].value)];
      }
    }
  }

  lemma NoEntries(pool: Mempool, s: Script, spent: set<OutPoint>)
    ensures Ids([]) == {} && NoRepeats([]) && EntriesOutputs(pool, [], s, spent) == []
  {
  }

  lemma EntriesStep(pool: Mempool, order: seq<Txid>, id: Txid, s: Script, spent: set<OutPoint>)
    requires NoRepeats(order) && id !in Ids(order) && id in pool.entries && forall x | x in order :: x in pool.entries
    ensures NoRepeats(order + [id]) && Ids(order + [id]) == Ids(order) + {id}
    ensures EntriesOutputs(pool, order + [id], s, spent) == EntriesOutputs(pool, order, s, spent)
      + EntryOutputs(pool.entries[id], id, s, spent, |pool.entries[id].outputs|)
  {
    hide EntryOutputs;
    IdsAppend(order, id);
    assert (order + [id])[..|order|] == order;
  }

  /** The entries of the script, in the order the index yields them. */
  method ListEntries(pool: Mempool, s: Script, spent: set<OutPoint>)
    returns (items: seq<Listed>, ghost order: seq<Txid>)
    requires forall id | id in pool.byScript(s) :: id in pool.entries
    ensures NoRepeats(order) && Ids(order) == pool.byScript(s) && forall id | id in order :: id in pool.entries
    ensures items == EntriesOutputs(pool, order, s, spent)
  {
    hide EntryOutputs, EntriesOutputs, Ids, NoRepeats;
    items, order := [], [];
    NoEntries(pool, s, spent);
    var all := pool.byScript(s);
    var rest := all;
    while rest != {}
      invariant rest <= all && NoRepeats(order) && Ids(order) == all - rest
      invariant forall id | id in order :: id in pool.entries
      invariant items == EntriesOutputs(pool, order, s, spent)
      decreases |rest|
    {
      var id :| id in rest;
      EntriesStep(pool, order, id, s, spent);
      var more := ListEntry(pool.entries[id], id, s, spent);
      items := items + more;
      order := order + [id];
      rest := rest - {id};
    }
  }

  /** The unspent list of a script. Too long a history, too many indexed entries or
      too large a list are errors. */
  method UnspentForScript(chain: Chain, pool: Mempool, s: Script, limit: nat, size: Listed -> nat, payload: nat)
    returns (r: Option<seq<Listed>>, ghost confirmed: seq<Located>, ghost order: seq<Txid>, ghost listing: seq<Listed>)
    requires Consistent(chain, pool)
    ensures |chain.history(s)| > limit || |pool.byScript(s)| > limit ==> r == None
    ensures |chain.history(s)| <= limit && |pool.byScript(s)| <= limit ==>
      && IsListing(chain, pool, s, confirmed, order, listing)
      && r == if listing == [] || PayloadSize(listing, size) <= payload then Some(listing) else None
    ensures r.Some? ==> Accounts(chain, pool, r.value) && ListedPoints(r.value) == Unspent(chain, pool, s)
    ensures r.Some? ==> ListedTotal(r.value) == Total(chain, pool, Unspent(chain, pool, s))
    ensures r.Some? ==> forall o :: o in ListedPoints(r.value) <==> IsUnspent(chain, pool, s, o)
    ensures r.Some? ==> forall e | e in r.value :: HeightTold(chain, pool, e)
  {
    hide Consistent, Accounts, OutPointsOf, Spent, Confirmed, Unspent, ListedPoints, EntriesOutputs, Total, Describes,
         Sorted, Distinct, OutPoints, NoRepeats, PayloadSize, IsUnspent, HeightTold;
    confirmed, order, listing := [], [], [];
    var listed := ConfirmedUnspentForScript(chain, s, limit);
    if listed.None? || |pool.byScript(s)| > limit {
      return None, [], [], [];
    }
    var spent := Spent(pool, pool.byScript(s));
    var kept := KeepUnspent(chain, listed.value, spent);
    forall id | id in pool.byScript(s) ensures id in pool.entries { IndexedIsEntry(chain, pool, s, id); }
    var entries;
    entries, order := ListEntries(pool, s, spent);
    var all := Told(kept) + entries;
    confirmed, listing := kept, all;
    ListingIsUnspent(chain, pool, s, confirmed, order, listing);
    forall o ensures o in Unspent(chain, pool, s) <==> IsUnspent(chain, pool, s, o) { UnspentIff(chain, pool, s, o); }
    var ok := FitsPayload(all, size, payload);
    r := if ok then Some(all) else None;
  }
}
