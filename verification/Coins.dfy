/**
 * The coin table and its reorg rollback, in the two backings that have to agree: the SQLite store,
 * whose rows are keyed by wallet and coin, and the in-memory slice of one wallet, which also keeps
 * the hint index.
 */
module Coins {
  import opened Prelude
  import opened Hints

  type WalletId = w: int | 0 <= w < 0x1_0000_0000
  type Height = h: int | 0 <= h < 0x1_0000_0000

  datatype CoinRecord = CoinRecord(
    coinId: CoinId, puzzleHash: string, amount: U64, created: Option<Height>, spent: Option<Height>)

  datatype CoinChange = Created | Spent | Updated | Unchanged

  type Rows = map<CoinId, CoinRecord>

  function ClassifyCoinChange(previous: Option<CoinRecord>, incoming: CoinRecord): CoinChange {
    match previous
    case None => if incoming.spent.Some? then Spent else Created
    case Some(known) =>
      if known == incoming then Unchanged
      else if known.spent.None? && incoming.spent.Some? then Spent
      else Updated
  }

  function Row(rows: Rows, id: CoinId): Option<CoinRecord> {
    if id in rows then Some(rows[id]) else None
  }

  /** What each answer tells the caller, in terms of the table before the update. */
  lemma ChangeMeans(rows: Rows, incoming: CoinRecord)
    ensures var change := ClassifyCoinChange(Row(rows, incoming.coinId), incoming);
            && (change.Unchanged? <==> rows[incoming.coinId := incoming] == rows)
            && (change.Created? <==> incoming.coinId !in rows && incoming.spent.None?)
            && (change.Spent? <==>
                incoming.spent.Some? && (incoming.coinId in rows ==> rows[incoming.coinId].spent.None?))
  {
    if incoming.coinId in rows && rows[incoming.coinId] == incoming {
      assert rows[incoming.coinId := incoming] == rows;
    }
    assert rows[incoming.coinId := incoming][incoming.coinId] == incoming;
  }

  predicate Above(height: Option<Height>, fork: Height) {
    height.Some? && height.value > fork
  }

  /** A row as the chain up to the fork knows it. */
  function AtFork(row: Option<CoinRecord>, fork: Height): Option<CoinRecord> {
    if row.None? || Above(row.value.created, fork) then None
    else if Above(row.value.spent, fork) then Some(row.value.(spent := None))
    else row
  }

  function RolledBack(rows: Rows, fork: Height): Rows {
    map id | id in rows && !Above(rows[id].created, fork) :: AtFork(Some(rows[id]), fork).value
  }

  function Affected(rows: Rows, fork: Height): set<CoinId> {
    set id | id in rows && (Above(rows[id].created, fork) || Above(rows[id].spent, fork))
  }

  /** What a rollback leaves, height by height: a coin created at the fork or below stays, one spent at the fork
      or below stays spent, and only what lies strictly above is undone and reported. */
  lemma RollbackReads(rows: Rows, fork: Height, id: CoinId)
    ensures id in RolledBack(rows, fork) <==> id in rows && (rows[id].created.Some? ==> rows[id].created.value <= fork)
    ensures id in RolledBack(rows, fork) ==>
              RolledBack(rows, fork)[id] ==
              if rows[id].spent.Some? && rows[id].spent.value > fork then rows[id].(spent := None) else rows[id]
    ensures id in Affected(rows, fork) <==>
            && id in rows
            && (|| (rows[id].created.Some? && rows[id].created.value > fork)
                || (rows[id].spent.Some? && rows[id].spent.value > fork))
  {
  }

  lemma RolledBackRow(rows: Rows, fork: Height, id: CoinId)
    ensures Row(RolledBack(rows, fork), id) == AtFork(Row(rows, id), fork)
    ensures id in Affected(rows, fork) <==> AtFork(Row(rows, id), fork) != Row(rows, id)
  {
  }

  lemma SameRows(a: Rows, b: Rows)
    requires forall id :: Row(a, id) == Row(b, id)
    ensures a == b
  {
    forall id ensures (id in a <==> id in b) && (id in a ==> a[id] == b[id]) {
      assert Row(a, id) == Row(b, id);
    }
  }

  /** Rolling back twice is rolling back to the lower fork. */
  lemma RollbacksCompose(rows: Rows, first: Height, second: Height)
    ensures RolledBack(RolledBack(rows, first), second) == RolledBack(rows, if first <= second then first else second)
  {
    var lower := if first <= second then first else second;
    forall id ensures Row(RolledBack(RolledBack(rows, first), second), id) == Row(RolledBack(rows, lower), id) {
      RolledBackRow(rows, first, id);
      RolledBackRow(RolledBack(rows, first), second, id);
      RolledBackRow(rows, lower, id);
    }
    SameRows(RolledBack(RolledBack(rows, first), second), RolledBack(rows, lower));
  }

  function Last(updates: seq<CoinRecord>): CoinRecord
    requires updates != []
  {
    updates[|updates| - 1]
  }

  function Earlier(updates: seq<CoinRecord>): seq<CoinRecord>
    requires updates != []
  {
    updates[..|updates| - 1]
  }

  function Applied(rows: Rows, updates: seq<CoinRecord>): Rows {
    if updates == [] then rows else Applied(rows, Earlier(updates))[Last(updates).coinId := Last(updates)]
  }

  /** One update above the fork: a coin not seen before, or an unspent coin becoming spent. */
  predicate IsNews(rows: Rows, update: CoinRecord, fork: Height) {
    if update.coinId !in rows then update.created.Some? && fork < update.created.value
    else
      var known := rows[update.coinId];
      && known.spent.None? && update.spent.Some? && fork < update.spent.value
      && update == known.(spent := update.spent)
  }

  predicate AllNews(rows: Rows, updates: seq<CoinRecord>, fork: Height) {
    updates == [] ||
    (AllNews(rows, Earlier(updates), fork) && IsNews(Applied(rows, Earlier(updates)), Last(updates), fork))
  }

  /** No height in the table lies above the fork. */
  predicate Settled(rows: Rows, fork: Height) {
    forall id :: id in rows ==>
      && (rows[id].created.Some? ==> rows[id].created.value <= fork)
      && (rows[id].spent.Some? ==> rows[id].spent.value <= fork)
  }

  function Touched(updates: seq<CoinRecord>): set<CoinId> {
    if updates == [] then {} else Touched(Earlier(updates)) + {Last(updates).coinId}
  }

  /** A rollback forgets one update exactly when, seen from the fork, it changed nothing. */
  lemma UpdateIsUndone(rows: Rows, update: CoinRecord, fork: Height)
    ensures RolledBack(rows[update.coinId := update], fork) == RolledBack(rows, fork)
            <==> AtFork(Some(update), fork) == AtFork(Row(rows, update.coinId), fork)
  {
    var after := rows[update.coinId := update];
    forall id ensures Row(RolledBack(after, fork), id) ==
                      if id == update.coinId then AtFork(Some(update), fork) else Row(RolledBack(rows, fork), id) {
      RolledBackRow(after, fork, id);
      RolledBackRow(rows, fork, id);
    }
    RolledBackRow(rows, fork, update.coinId);
    if AtFork(Some(update), fork) == AtFork(Row(rows, update.coinId), fork) {
      SameRows(RolledBack(after, fork), RolledBack(rows, fork));
    }
  }

  lemma NewsIsUndone(rows: Rows, update: CoinRecord, fork: Height)
    requires IsNews(rows, update, fork)
    ensures RolledBack(rows[update.coinId := update], fork) == RolledBack(rows, fork)
    ensures Affected(rows[update.coinId := update], fork) == Affected(rows, fork) + {update.coinId}
  {
    UpdateIsUndone(rows, update, fork);
  }

  /**
   * A reorg undone: whatever news arrived above the fork, rolling back restores the table that was
   * there before and reports exactly the coins the news touched.
   */
  lemma {:induction false} ReorgIsUndone(rows: Rows, updates: seq<CoinRecord>, fork: Height)
    requires Settled(rows, fork) && AllNews(rows, updates, fork)
    ensures RolledBack(Applied(rows, updates), fork) == rows
    ensures Affected(Applied(rows, updates), fork) == Touched(updates)
    decreases |updates|
  {
    if updates == [] {
      SameRows(RolledBack(rows, fork), rows);
    } else {
      ReorgIsUndone(rows, Earlier(updates), fork);
      NewsIsUndone(Applied(rows, Earlier(updates)), Last(updates), fork);
    }
  }

  /** A confirmation above the fork is not undone but forgotten: the pending row is not brought back. */
  lemma PendingCoinIsForgotten()
    ensures var pending := CoinRecord("c", "p", 1, None, None);
            var confirmed := pending.(created := Some(6));
            var rows: Rows := map["c" := pending];
            && Settled(rows, 5)
            && RolledBack(Applied(rows, [confirmed]), 5) == map[]
  {
    var pending := CoinRecord("c", "p", 1, None, None);
    var rows: Rows := map["c" := pending];
    var confirmed := pending.(created := Some(6));
    assert Earlier([confirmed]) == [];
  }

  datatype Key = Key(wallet: WalletId, coin: CoinId)
  datatype Lifecycle = Idle | Syncing | Synced
  datatype SyncRow = SyncRow(peak: Height, target: Height, lifecycle: Lifecycle)

  function RowAt(coins: map<Key, CoinRecord>, wallet: WalletId, id: CoinId): Option<CoinRecord> {
    if Key(wallet, id) in coins then Some(coins[Key(wallet, id)]) else None
  }

  /** One wallet's rows. */
  function Slice(coins: map<Key, CoinRecord>, wallet: WalletId): Rows {
    map id | id in (set k | k in coins && k.wallet == wallet :: k.coin) :: coins[Key(wallet, id)]
  }

  lemma SliceRow(coins: map<Key, CoinRecord>, wallet: WalletId, id: CoinId)
    ensures Row(Slice(coins, wallet), id) == RowAt(coins, wallet, id)
  {
    if Key(wallet, id) in coins {
      assert Key(wallet, id).coin in (set k | k in coins && k.wallet == wallet :: k.coin);
    }
  }

  lemma SliceIs(coins: map<Key, CoinRecord>, wallet: WalletId, rows: Rows)
    requires forall id :: RowAt(coins, wallet, id) == Row(rows, id)
    ensures Slice(coins, wallet) == rows
  {
    forall id ensures Row(Slice(coins, wallet), id) == Row(rows, id) {
      SliceRow(coins, wallet, id);
    }
    SameRows(Slice(coins, wallet), rows);
  }

  lemma OtherSlicesKept(before: map<Key, CoinRecord>, after: map<Key, CoinRecord>, wallet: WalletId)
    requires forall other, id :: other != wallet ==> RowAt(after, other, id) == RowAt(before, other, id)
    ensures forall other: WalletId :: other != wallet ==> Slice(after, other) == Slice(before, other)
  {
    forall other: WalletId | other != wallet ensures Slice(after, other) == Slice(before, other) {
      forall id ensures RowAt(after, other, id) == Row(Slice(before, other), id) {
        SliceRow(before, other, id);
        assert RowAt(after, other, id) == RowAt(before, other, id);
      }
      SliceIs(after, other, Slice(before, other));
    }
  }

  /** A row written under its own coin id changes that row of that wallet and nothing else. */
  lemma Upserted(coins: map<Key, CoinRecord>, wallet: WalletId, record: CoinRecord)
    ensures var after := coins[Key(wallet, record.coinId) := record];
            && Slice(after, wallet) == Slice(coins, wallet)[record.coinId := record]
            && forall other: WalletId :: other != wallet ==> Slice(after, other) == Slice(coins, other)
  {
    var after := coins[Key(wallet, record.coinId) := record];
    forall id ensures RowAt(after, wallet, id) == Row(Slice(coins, wallet)[record.coinId := record], id) {
      SliceRow(coins, wallet, id);
    }
    SliceIs(after, wallet, Slice(coins, wallet)[record.coinId := record]);
    OtherSlicesKept(coins, after, wallet);
  }

  /** The two statements of a rollback, a delete and an update, are the rollback of the wallet's slice. */
  function Deleted(coins: map<Key, CoinRecord>, wallet: WalletId, fork: Height): map<Key, CoinRecord> {
    map k | k in coins && !(k.wallet == wallet && Above(coins[k].created, fork)) :: coins[k]
  }

  function Unspent(coins: map<Key, CoinRecord>, wallet: WalletId, fork: Height): map<Key, CoinRecord> {
    map k | k in coins ::
      if k.wallet == wallet && Above(coins[k].spent, fork) then coins[k].(spent := None) else coins[k]
  }

  function CreatedAbove(coins: map<Key, CoinRecord>, wallet: WalletId, fork: Height): set<CoinId> {
    set k | k in coins && k.wallet == wallet && Above(coins[k].created, fork) :: k.coin
  }

  function SpentAbove(coins: map<Key, CoinRecord>, wallet: WalletId, fork: Height): set<CoinId> {
    set k | k in coins && k.wallet == wallet && Above(coins[k].spent, fork) :: k.coin
  }

  lemma StatementsRollBack(coins: map<Key, CoinRecord>, wallet: WalletId, fork: Height)
    ensures var after := Unspent(Deleted(coins, wallet, fork), wallet, fork);
            && Slice(after, wallet) == RolledBack(Slice(coins, wallet), fork)
            && forall other: WalletId :: other != wallet ==> Slice(after, other) == Slice(coins, other)
  {
    var after := Unspent(Deleted(coins, wallet, fork), wallet, fork);
    forall id ensures RowAt(after, wallet, id) == Row(RolledBack(Slice(coins, wallet), fork), id) {
      SliceRow(coins, wallet, id);
      RolledBackRow(Slice(coins, wallet), fork, id);
    }
    SliceIs(after, wallet, RolledBack(Slice(coins, wallet), fork));
    forall other: WalletId, id | other != wallet ensures RowAt(after, other, id) == RowAt(coins, other, id) {
    }
    OtherSlicesKept(coins, after, wallet);
  }

  lemma StatementsReport(coins: map<Key, CoinRecord>, wallet: WalletId, fork: Height)
    ensures CreatedAbove(coins, wallet, fork) + SpentAbove(Deleted(coins, wallet, fork), wallet, fork)
            == Affected(Slice(coins, wallet), fork)
  {
    var left := Deleted(coins, wallet, fork);
    forall id ensures (id in CreatedAbove(coins, wallet, fork) || id in SpentAbove(left, wallet, fork))
                      <==> id in Affected(Slice(coins, wallet), fork) {
      SliceRow(coins, wallet, id);
      assert Key(wallet, id) in coins && Above(coins[Key(wallet, id)].created, fork)
        ==> Key(wallet, id).coin in CreatedAbove(coins, wallet, fork);
      assert Key(wallet, id) in left && Above(left[Key(wallet, id)].spent, fork)
        ==> Key(wallet, id).coin in SpentAbove(left, wallet, fork);
    }
  }

  class SqliteWalletStore {
    var coins: map<Key, CoinRecord>
    var syncState: map<WalletId, SyncRow>

    constructor ()
      ensures Valid() && coins == map[] && syncState == map[]
    {
      coins, syncState := map[], map[];
    }

    /** Every row is stored under its own coin id. */
    ghost predicate Valid()
      reads this
    {
      forall k :: k in coins ==> coins[k].coinId == k.coin
    }

    function WalletRows(wallet: WalletId): Rows
      reads this`coins
    {
      Slice(coins, wallet)
    }

    function PeakHeight(wallet: WalletId): Height
      reads this`syncState
    {
      if wallet in syncState then syncState[wallet].peak else 0
    }

    method ApplyCoinState(wallet: WalletId, record: CoinRecord) returns (change: CoinChange)
      requires Valid()
      modifies this`coins
      ensures Valid()
      ensures change == ClassifyCoinChange(Row(old(WalletRows(wallet)), record.coinId), record)
      ensures WalletRows(wallet) == old(WalletRows(wallet))[record.coinId := record]
      ensures forall other :: other != wallet ==> WalletRows(other) == old(WalletRows(other))
    {
      SliceRow(coins, wallet, record.coinId);
      Upserted(coins, wallet, record);
      change := ClassifyCoinChange(RowAt(coins, wallet, record.coinId), record);
      coins := coins[Key(wallet, record.coinId) := record];
    }

    method SetPeakAbsolute(wallet: WalletId, peak: Height)
      modifies this`syncState
      ensures PeakHeight(wallet) == peak
      ensures syncState.Keys == old(syncState.Keys) + {wallet}
      ensures wallet in old(syncState) ==> syncState[wallet] == old(syncState)[wallet].(peak := peak)
      ensures wallet !in old(syncState) ==> syncState[wallet] == SyncRow(peak, 0, Idle)
      ensures forall other :: other in old(syncState) && other != wallet ==> syncState[other] == old(syncState)[other]
    {
      var row := if wallet in syncState then syncState[wallet].(peak := peak) else SyncRow(peak, 0, Idle);
      syncState := syncState[wallet := row];
    }

    /** The peak never moves backwards here. */
    method SetPeak(wallet: WalletId, peak: Height)
      modifies this`syncState
      ensures PeakHeight(wallet) >= old(PeakHeight(wallet)) && PeakHeight(wallet) >= peak
      ensures PeakHeight(wallet) == peak || PeakHeight(wallet) == old(PeakHeight(wallet))
      ensures forall other :: other != wallet ==> PeakHeight(other) == old(PeakHeight(other))
    {
      var current := PeakHeight(wallet);
      SetPeakAbsolute(wallet, if current >= peak then current else peak);
    }

    method RollbackTo(wallet: WalletId, fork: Height) returns (affected: set<CoinId>)
      requires Valid()
      modifies this
      ensures Valid()
      ensures WalletRows(wallet) == RolledBack(old(WalletRows(wallet)), fork)
      ensures affected == Affected(old(WalletRows(wallet)), fork)
      ensures PeakHeight(wallet) == fork
      ensures forall other :: other != wallet ==>
                WalletRows(other) == old(WalletRows(other)) && PeakHeight(other) == old(PeakHeight(other))
    {
      StatementsRollBack(coins, wallet, fork);
      StatementsReport(coins, wallet, fork);
      affected := CreatedAbove(coins, wallet, fork);
      coins := Deleted(coins, wallet, fork);
      affected := affected + SpentAbove(coins, wallet, fork);
      coins := Unspent(coins, wallet, fork);
      SetPeakAbsolute(wallet, fork);
    }
  }

  /** The rows once the coins in `seen` have been checked for a creation above the fork. */
  ghost function Retained(rows: Rows, seen: set<CoinId>, fork: Height): Rows {
    map id | id in rows && !(id in seen && Above(rows[id].created, fork)) :: rows[id]
  }

  /** The rows once the coins in `seen` have been checked for a spend above the fork. */
  ghost function Respendable(rows: Rows, seen: set<CoinId>, fork: Height): Rows {
    map id | id in rows :: if id in seen && Above(rows[id].spent, fork) then rows[id].(spent := None) else rows[id]
  }

  ghost predicate Lists(ids: seq<CoinId>, members: set<CoinId>) {
    && (forall id :: id in ids <==> id in members)
    && (forall i, j :: 0 <= i < j < |ids| ==> ids[i] != ids[j])
  }

  lemma ListsBoth(a: seq<CoinId>, b: seq<CoinId>, inA: set<CoinId>, inB: set<CoinId>)
    requires Lists(a, inA) && Lists(b, inB) && inA !! inB
    ensures Lists(a + b, inA + inB)
  {
    forall i, j | 0 <= i < j < |a + b| ensures (a + b)[i] != (a + b)[j] {
      assert i < |a| ==> (a + b)[i] in inA;
      assert j >= |a| ==> (a + b)[j] in inB;
    }
  }

  lemma RetainedThenRespendable(rows: Rows, fork: Height)
    ensures var left := Retained(rows, rows.Keys, fork);
            && Respendable(left, left.Keys, fork) == RolledBack(rows, fork)
            && CreatedOf(rows, rows.Keys, fork) + SpentOf(left, left.Keys, fork) == Affected(rows, fork)
  {
  }

  ghost function CreatedOf(rows: Rows, seen: set<CoinId>, fork: Height): set<CoinId> {
    set id | id in seen && id in rows && Above(rows[id].created, fork)
  }

  ghost function SpentOf(rows: Rows, seen: set<CoinId>, fork: Height): set<CoinId> {
    set id | id in seen && id in rows && Above(rows[id].spent, fork)
  }

  /** One wallet's slice of the in-memory store. */
  class WalletState {
    var coins: Rows
    const hints: HintIndex
    var peak: Height

    constructor ()
      ensures fresh(hints) && hints.Valid() && hints.byCoin == map[] && coins == map[] && peak == 0
    {
      coins, peak := map[], 0;
      hints := new HintIndex();
    }

    method ApplyCoinState(record: CoinRecord) returns (change: CoinChange)
      modifies this`coins
      ensures change == ClassifyCoinChange(Row(old(coins), record.coinId), record)
      ensures coins == old(coins)[record.coinId := record]
    {
      change := ClassifyCoinChange(Row(coins, record.coinId), record);
      coins := coins[record.coinId := record];
    }

    /** Forget the coins created above the fork, in one pass over the rows. */
    method RetainCreated(fork: Height) returns (forgotten: seq<CoinId>)
      modifies this`coins
      ensures coins == Retained(old(coins), old(coins).Keys, fork)
      ensures Lists(forgotten, CreatedOf(old(coins), old(coins).Keys, fork))
    {
      forgotten := [];
      ghost var before := coins;
      var remaining := coins.Keys;
      while remaining != {}
        invariant remaining <= before.Keys
        invariant coins == Retained(before, before.Keys - remaining, fork)
        invariant Lists(forgotten, CreatedOf(before, before.Keys - remaining, fork))
      {
        var id :| id in remaining;
        assert id in coins;
        if Above(coins[id].created, fork) {
          coins := coins - {id};
          ListsBoth(forgotten, [id], CreatedOf(before, before.Keys - remaining, fork), {id});
          forgotten := forgotten + [id];
        }
        remaining := remaining - {id};
        assert CreatedOf(before, before.Keys - remaining, fork) ==
               CreatedOf(before, before.Keys - remaining - {id}, fork) +
               if Above(before[id].created, fork) then {id} else {};
      }
      assert before.Keys - remaining == before.Keys;
    }

    /** Take back the spends above the fork, in one pass over the rows. */
    method TakeBackSpends(fork: Height) returns (unspent: seq<CoinId>)
      modifies this`coins
      ensures coins == Respendable(old(coins), old(coins).Keys, fork)
      ensures Lists(unspent, SpentOf(old(coins), old(coins).Keys, fork))
    {
      unspent := [];
      ghost var before := coins;
      var remaining := coins.Keys;
      while remaining != {}
        invariant remaining <= before.Keys
        invariant coins == Respendable(before, before.Keys - remaining, fork)
        invariant Lists(unspent, SpentOf(before, before.Keys - remaining, fork))
      {
        var id :| id in remaining;
        assert id in coins;
        if Above(coins[id].spent, fork) {
          coins := coins[id := coins[id].(spent := None)];
          ListsBoth(unspent, [id], SpentOf(before, before.Keys - remaining, fork), {id});
          unspent := unspent + [id];
        }
        remaining := remaining - {id};
        assert SpentOf(before, before.Keys - remaining, fork) ==
               SpentOf(before, before.Keys - remaining - {id}, fork) +
               if Above(before[id].spent, fork) then {id} else {};
      }
      assert before.Keys - remaining == before.Keys;
    }

    /**
     * The same table, the same report and the same peak as the SQLite store's rollback; the forgotten
     * coins also leave the hint index, so no hint leads to a coin the store no longer tracks.
     */
    method RollbackTo(fork: Height) returns (affected: seq<CoinId>)
      requires hints.Valid()
      modifies this, hints
      ensures hints.Valid()
      ensures coins == RolledBack(old(coins), fork) && peak == fork
      ensures Lists(affected, Affected(old(coins), fork))
      ensures hints.byCoin == old(hints.byCoin) - CreatedOf(old(coins), old(coins).Keys, fork)
      ensures old(hints.byCoin.Keys <= coins.Keys) ==> hints.byCoin.Keys <= coins.Keys
    {
      RetainedThenRespendable(coins, fork);
      var forgotten := RetainCreated(fork);
      ghost var left := coins;
      ForgetAll(forgotten);
      assert CreatedOf(old(coins), old(coins).Keys, fork) == (set id | id in forgotten);
      var unspent := TakeBackSpends(fork);
      ListsBoth(forgotten, unspent, CreatedOf(old(coins), old(coins).Keys, fork), SpentOf(left, left.Keys, fork));
      affected := forgotten + unspent;
      peak := fork;
    }

    method ForgetAll(forgotten: seq<CoinId>)
      requires hints.Valid()
      modifies hints
      ensures hints.Valid() && hints.byCoin == old(hints.byCoin) - (set id | id in forgotten)
    {
      for i := 0 to |forgotten|
        invariant hints.Valid()
        invariant hints.byCoin == old(hints.byCoin) - (set id | id in forgotten[..i])
      {
        hints.Forget(forgotten[i]);
        assert forgotten[..i + 1] == forgotten[..i] + [forgotten[i]];
      }
      assert forgotten[..|forgotten|] == forgotten;
    }
  }
}
