/**
 * The transaction list manager: ledger transactions turned into display
 * records relative to the current address, the list sorted newest first,
 * the sent / received / history selections the views show, and the pending
 * entries a send adds, removes or confirms.
 *
 * The current address, the fetched response and the clock are parameters.
 * A string field the ledger leaves out is the empty string here. The uses
 * are truthiness tests, copies, comparisons with non-empty literals and the
 * comparison of `to` with the current address; only the last tells "" from
 * a missing field, and only when the current address is itself "".
 */
module Transactions {
  import opened Outcomes
  import opened JsString
  import opened Numerals

  /**
   * The `type` field of a display record: 'sent', 'received', or any other
   * string a confirmation's `realTxData` brings with it.
   */
  datatype Direction = Sent | Received | Other(name: string)

  /** A `type` value written one way only: Other never names 'sent' or 'received'. */
  type EntryType = d: Direction | d.Other? ==> d.name != "sent" && d.name != "received" witness Sent

  /** The string the views compare with `tx.type === ...`. */
  function TypeName(d: Direction): string {
    match d
    case Sent => "sent"
    case Received => "received"
    case Other(name) => name
  }

  /** The record type a `type` string stands for. */
  function TypeOf(t: string): (d: EntryType)
    ensures TypeName(d) == t
    ensures d.Other? <==> t != "sent" && t != "received"
  {
    if t == "sent" then Sent else if t == "received" then Received else Other(t)
  }

  /** Every record type is the one its own name stands for. */
  lemma TypeOfName(d: EntryType)
    ensures TypeOf(TypeName(d)) == d
  {
  }
  datatype Status = Confirmed | Pending

  /** The `block` field: a block index, or the string 'Pending' of a pending entry. */
  datatype Block = Height(index: int) | AwaitingBlock

  /** A transaction as the ledger service returns it. */
  datatype RawTransaction = RawTransaction(
    transactionId: string, signature: string, from: string, to: string, amount: real, kind: string)

  /** One element of the address-transactions response. */
  datatype Fetched = Fetched(transaction: RawTransaction, blockIndex: int, timestamp: real)

  /** A display record. */
  datatype Entry = Entry(
    id: string, direction: EntryType, from: string, to: string, amount: real, timestamp: real,
    block: Block, isMiningReward: bool, isGenesis: bool, status: Status, isPending: bool)

  /**
   * The fields of the `realTxData` object spread over a confirmed entry;
   * None where it has none. `kind` is its `type` string.
   */
  datatype Patch = Patch(
    id: Option<string>, kind: Option<string>, from: Option<string>, to: Option<string>,
    amount: Option<real>, timestamp: Option<real>, block: Option<Block>,
    isMiningReward: Option<bool>, isGenesis: Option<bool>)

  const NETWORK: string := "NETWORK"

  // ---------------------------------------------------------------------
  // formatTransaction
  // ---------------------------------------------------------------------

  /** `tx.transaction_id || tx.signature?.slice(0, 16) || 'unknown'` */
  function DisplayId(tx: RawTransaction): (id: string)
    ensures id != ""
    ensures tx.transactionId != "" ==> id == tx.transactionId
    ensures tx.transactionId == "" && tx.signature != "" ==>
      1 <= |id| <= 16 && |id| <= |tx.signature| && id == tx.signature[..|id|]
      && (|tx.signature| >= 16 ==> |id| == 16)
    ensures tx.transactionId == "" && tx.signature == "" ==> id == "unknown"
  {
    if tx.transactionId != "" then tx.transactionId
    else if tx.signature != "" then Substring(tx.signature, 0, 16)
    else "unknown"
  }

  /**
   * A fetched transaction as a confirmed display record: received exactly
   * when it is addressed to the current address, sent otherwise.
   */
  function FormatTransaction(tx: RawTransaction, blockIndex: int, timestamp: real,
                             currentAddress: string, nowSeconds: real): (e: Entry)
    ensures e.direction == Received <==> tx.to == currentAddress
    ensures !e.direction.Other?
    ensures e.id == DisplayId(tx) && e.from == tx.from && e.to == tx.to && e.amount == tx.amount
    ensures e.timestamp == if timestamp != 0.0 then timestamp else nowSeconds
    ensures e.block == Height(blockIndex)
    ensures e.isMiningReward <==> tx.from == NETWORK
    ensures e.isGenesis <==> tx.kind == "genesis"
    ensures e.status == Confirmed && !e.isPending
  {
    Entry(
      DisplayId(tx),
      if tx.to == currentAddress then Received else Sent,
      tx.from, tx.to, tx.amount,
      if timestamp != 0.0 then timestamp else nowSeconds,
      Height(blockIndex),
      tx.from == NETWORK, tx.kind == "genesis", Confirmed, false)
  }

  function FormatAll(fetched: seq<Fetched>, currentAddress: string, nowSeconds: real): (r: seq<Entry>)
    ensures |r| == |fetched|
    ensures forall i :: 0 <= i < |fetched| ==>
      r[i] == FormatTransaction(fetched[i].transaction, fetched[i].blockIndex, fetched[i].timestamp,
                                currentAddress, nowSeconds)
  {
    seq(|fetched|, i requires 0 <= i < |fetched| =>
      FormatTransaction(fetched[i].transaction, fetched[i].blockIndex, fetched[i].timestamp,
                        currentAddress, nowSeconds))
  }

  /** A transaction that names the current address on neither side still shows as sent. */
  lemma UnrelatedIsSent(tx: RawTransaction, blockIndex: int, timestamp: real,
                        currentAddress: string, nowSeconds: real)
    requires tx.to != currentAddress && tx.from != currentAddress
    ensures FormatTransaction(tx, blockIndex, timestamp, currentAddress, nowSeconds).direction == Sent
  {
  }

  // ---------------------------------------------------------------------
  // The newest-first sort
  // ---------------------------------------------------------------------

  predicate NewestFirst(s: seq<Entry>) {
    forall i, j :: 0 <= i < j < |s| ==> s[i].timestamp >= s[j].timestamp
  }

  /** Places `e` before the first entry that is not newer than it: the list gains exactly `e`. */
  function Insert(e: Entry, sorted: seq<Entry>): (r: seq<Entry>)
    ensures multiset(r) == multiset(sorted) + multiset{e}
  {
    if sorted == [] then [e]
    else if e.timestamp >= sorted[0].timestamp then [e] + sorted
    else
      assert sorted == [sorted[0]] + sorted[1..];
      [sorted[0]] + Insert(e, sorted[1..])
  }

  /**
   * `sort((a, b) => b.timestamp - a.timestamp)`: a stable sort, newest
   * first. The result is in non-increasing timestamp order and holds the
   * same entries.
   */
  function SortNewestFirst(s: seq<Entry>): (r: seq<Entry>)
    ensures NewestFirst(r)
    ensures multiset(r) == multiset(s)
  {
    if s == [] then []
    else
      var rest := SortNewestFirst(s[1..]);
      InsertKeepsOrder(s[0], rest);
      assert s == [s[0]] + s[1..];
      Insert(s[0], rest)
  }

  /** The entries with timestamp `t`, in order. */
  function WithTimestamp(s: seq<Entry>, t: real): seq<Entry> {
    if s == [] then []
    else (if s[0].timestamp == t then [s[0]] else []) + WithTimestamp(s[1..], t)
  }

  /** The first entry of a newest-first list is at least as new as every entry. */
  lemma HeadIsNewest(s: seq<Entry>)
    requires NewestFirst(s) && s != []
    ensures forall x :: x in s ==> x.timestamp <= s[0].timestamp
  {
    forall x | x in s
      ensures x.timestamp <= s[0].timestamp
    {
      var k :| 0 <= k < |s| && s[k] == x;
      if k > 0 {
        assert s[0].timestamp >= s[k].timestamp;
      }
    }
  }

  lemma NewestFirstTail(s: seq<Entry>)
    requires NewestFirst(s) && s != []
    ensures NewestFirst(s[1..])
  {
    var t := s[1..];
    forall i, j | 0 <= i < j < |t|
      ensures t[i].timestamp >= t[j].timestamp
    {
      assert t[i] == s[i + 1] && t[j] == s[j + 1];
    }
  }

  /** An entry at least as new as a newest-first list can go in front of it. */
  lemma NewestFirstCons(x: Entry, s: seq<Entry>)
    requires NewestFirst(s)
    requires forall y :: y in s ==> y.timestamp <= x.timestamp
    ensures NewestFirst([x] + s)
  {
    var r := [x] + s;
    forall i, j | 0 <= i < j < |r|
      ensures r[i].timestamp >= r[j].timestamp
    {
      assert r[j] == s[j - 1];
      assert r[j] in s;
      if i > 0 {
        assert r[i] == s[i - 1];
      }
    }
  }

  lemma InsertMembers(e: Entry, sorted: seq<Entry>)
    ensures forall x :: x in Insert(e, sorted) ==> x == e || x in sorted
  {
    forall x | x in Insert(e, sorted)
      ensures x == e || x in sorted
    {
      assert x in multiset(Insert(e, sorted));
    }
  }

  /** Inserting into a newest-first list keeps it newest first. */
  lemma {:induction false} InsertKeepsOrder(e: Entry, sorted: seq<Entry>)
    requires NewestFirst(sorted)
    ensures NewestFirst(Insert(e, sorted))
  {
    if sorted == [] {
      assert Insert(e, sorted) == [e];
    } else if e.timestamp >= sorted[0].timestamp {
      HeadIsNewest(sorted);
      NewestFirstCons(e, sorted);
    } else {
      var rest := sorted[1..];
      NewestFirstTail(sorted);
      InsertKeepsOrder(e, rest);
      InsertMembers(e, rest);
      HeadIsNewest(sorted);
      var tail := Insert(e, rest);
      assert forall y :: y in rest ==> y in sorted;
      NewestFirstCons(sorted[0], tail);
      assert Insert(e, sorted) == [sorted[0]] + tail;
    }
  }

  lemma WithTimestampCons(x: Entry, s: seq<Entry>, t: real)
    ensures WithTimestamp([x] + s, t) == (if x.timestamp == t then [x] else []) + WithTimestamp(s, t)
  {
    assert ([x] + s)[1..] == s;
  }

  lemma {:induction false} InsertWithTimestamp(e: Entry, sorted: seq<Entry>, t: real)
    requires NewestFirst(sorted)
    ensures WithTimestamp(Insert(e, sorted), t)
      == (if e.timestamp == t then [e] else []) + WithTimestamp(sorted, t)
  {
    if sorted == [] {
      WithTimestampCons(e, [], t);
      assert Insert(e, sorted) == [e] + [];
    } else if e.timestamp >= sorted[0].timestamp {
      WithTimestampCons(e, sorted, t);
    } else {
      var head, rest := sorted[0], sorted[1..];
      NewestFirstTail(sorted);
      InsertWithTimestamp(e, rest, t);
      var tail := Insert(e, rest);
      var mine, theirs := if e.timestamp == t then [e] else [], if head.timestamp == t then [head] else [];
      assert Insert(e, sorted) == [head] + tail;
      WithTimestampCons(head, tail, t);
      var later := WithTimestamp(rest, t);
      assert WithTimestamp(sorted, t) == theirs + later;
      assert WithTimestamp(Insert(e, sorted), t) == theirs + (mine + later);
      SwapEmpty(mine, theirs, later);
    }
  }

  /** Two parts of which one is empty can be put in either order. */
  lemma SwapEmpty<T>(a: seq<T>, b: seq<T>, c: seq<T>)
    requires a == [] || b == []
    ensures b + (a + c) == a + (b + c)
  {
    if a == [] {
      assert a + c == c && a + (b + c) == b + c;
    } else {
      assert b + (a + c) == a + c && b + c == c;
    }
  }

  /** Entries with equal timestamps keep their relative order: the sort is stable. */
  lemma {:induction false} SortNewestFirstStable(s: seq<Entry>, t: real)
    ensures WithTimestamp(SortNewestFirst(s), t) == WithTimestamp(s, t)
  {
    if s != [] {
      SortNewestFirstStable(s[1..], t);
      InsertWithTimestamp(s[0], SortNewestFirst(s[1..]), t);
    }
  }

  // ---------------------------------------------------------------------
  // Selections shown by the views
  // ---------------------------------------------------------------------

  /** `filter(tx => tx.type === d)`: no longer than the list, and every entry kept has direction `d`. */
  function Keep(s: seq<Entry>, d: Direction): (r: seq<Entry>)
    ensures |r| <= |s|
    ensures forall i :: 0 <= i < |r| ==> r[i].direction == d
  {
    if s == [] then []
    else (if s[0].direction == d then [s[0]] else []) + Keep(s[1..], d)
  }

  /** `slice(0, n)` */
  function Take(s: seq<Entry>, n: nat): (r: seq<Entry>)
    ensures |r| == if |s| < n then |s| else n
    ensures r == s[..|r|]
  {
    if |s| <= n then s else s[..n]
  }

  /** The sent pane: the first ten sent entries, in list order. */
  function SentPane(s: seq<Entry>): (pane: seq<Entry>)
    ensures |pane| == Min(10, |Keep(s, Sent)|)
    ensures pane == Keep(s, Sent)[..|pane|]
    ensures forall x :: x in pane ==> x in s && x.direction == Sent
  {
    KeepMembers(s, Sent);
    Take(Keep(s, Sent), 10)
  }

  /** The received pane: the first ten received entries, in list order. */
  function ReceivedPane(s: seq<Entry>): (pane: seq<Entry>)
    ensures |pane| == Min(10, |Keep(s, Received)|)
    ensures pane == Keep(s, Received)[..|pane|]
    ensures forall x :: x in pane ==> x in s && x.direction == Received
  {
    KeepMembers(s, Received);
    Take(Keep(s, Received), 10)
  }

  /**
   * The history view for a filter value: 'sent' and 'received' select by
   * direction, and any other value shows the whole list.
   */
  function History(s: seq<Entry>, filter: string): (shown: seq<Entry>)
    ensures filter == "sent" ==> forall x :: x in shown <==> x in s && x.direction == Sent
    ensures filter == "received" ==> forall x :: x in shown <==> x in s && x.direction == Received
    ensures filter != "sent" && filter != "received" ==> shown == s
  {
    KeepMembers(s, Sent);
    KeepMembers(s, Received);
    if filter == "sent" then Keep(s, Sent)
    else if filter == "received" then Keep(s, Received)
    else s
  }

  /** Filtering a concatenation filters each part: relative order is preserved. */
  lemma {:induction false} KeepAppend(a: seq<Entry>, b: seq<Entry>, d: Direction)
    ensures Keep(a + b, d) == Keep(a, d) + Keep(b, d)
  {
    if a != [] {
      var head := if a[0].direction == d then [a[0]] else [];
      KeepAppend(a[1..], b, d);
      assert Keep(a + b, d) == head + Keep(a[1..] + b, d) by {
        assert (a + b)[0] == a[0] && (a + b)[1..] == a[1..] + b;
      }
      assert Keep(a, d) == head + Keep(a[1..], d);
    } else {
      assert a + b == b;
    }
  }

  /** The selection holds exactly the entries of that direction. */
  lemma {:induction false} KeepMembers(s: seq<Entry>, d: Direction)
    ensures forall x :: x in Keep(s, d) <==> x in s && x.direction == d
  {
    if s != [] {
      KeepMembers(s[1..], d);
      assert s == [s[0]] + s[1..];
    }
  }

  /** The entries whose type is neither 'sent' nor 'received': they appear in neither selection. */
  function Unlisted(s: seq<Entry>): (r: seq<Entry>)
    ensures |r| <= |s|
    ensures forall i :: 0 <= i < |r| ==> r[i].direction.Other?
  {
    if s == [] then []
    else (if s[0].direction.Other? then [s[0]] else []) + Unlisted(s[1..])
  }

  /**
   * No entry is in both the sent and the received selection, and together
   * they hold every entry as often as the list does exactly when no entry
   * has another type; the entries of another type are in neither.
   */
  lemma {:induction false} KeepPartition(s: seq<Entry>)
    ensures multiset(Keep(s, Sent)) + multiset(Keep(s, Received)) <= multiset(s)
    ensures multiset(Keep(s, Sent)) + multiset(Keep(s, Received)) == multiset(s)
      <==> forall i :: 0 <= i < |s| ==> !s[i].direction.Other?
    ensures |Keep(s, Sent)| + |Keep(s, Received)| + |Unlisted(s)| == |s|
  {
    KeepSplits(s);
    var listed, unlisted := multiset(Keep(s, Sent)) + multiset(Keep(s, Received)), multiset(Unlisted(s));
    assert |listed + unlisted| == |multiset(s)|;
    UnlistedEmpty(s);
    if listed == multiset(s) {
      assert |unlisted| == 0;
    }
  }

  /** No unlisted entry exactly when no entry has another type. */
  lemma UnlistedEmpty(s: seq<Entry>)
    ensures Unlisted(s) == [] <==> forall i :: 0 <= i < |s| ==> !s[i].direction.Other?
  {
    UnlistedMembers(s);
    if Unlisted(s) != [] {
      assert Unlisted(s)[0] in Unlisted(s);
    }
  }

  /** The unlisted entries are exactly those of another type. */
  lemma {:induction false} UnlistedMembers(s: seq<Entry>)
    ensures forall x :: x in Unlisted(s) <==> x in s && x.direction.Other?
  {
    if s != [] {
      UnlistedMembers(s[1..]);
      assert s == [s[0]] + s[1..];
    }
  }

  lemma {:induction false} KeepSplits(s: seq<Entry>)
    ensures multiset(Keep(s, Sent)) + multiset(Keep(s, Received)) + multiset(Unlisted(s)) == multiset(s)
  {
    if s != [] {
      var x, rest := s[0], s[1..];
      KeepSplits(rest);
      MultisetCons(s);
      var sent, received, other := multiset(Keep(rest, Sent)), multiset(Keep(rest, Received)), multiset(Unlisted(rest));
      assert multiset(Keep(s, Sent)) == (if x.direction == Sent then multiset{x} else multiset{}) + sent;
      assert multiset(Keep(s, Received)) == (if x.direction == Received then multiset{x} else multiset{}) + received;
      assert multiset(Unlisted(s)) == (if x.direction.Other? then multiset{x} else multiset{}) + other;
    }
  }

  lemma MultisetCons<T>(s: seq<T>)
    requires s != []
    ensures multiset(s) == multiset{s[0]} + multiset(s[1..])
  {
    assert s == [s[0]] + s[1..];
  }

  /** A rebuilt list has only sent and received entries, so the two selections cover it. */
  lemma RebuildListed(fetched: seq<Fetched>, currentAddress: string, nowSeconds: real)
    ensures var s := SortNewestFirst(FormatAll(fetched, currentAddress, nowSeconds));
      multiset(Keep(s, Sent)) + multiset(Keep(s, Received)) == multiset(s)
  {
    var formatted := FormatAll(fetched, currentAddress, nowSeconds);
    var s := SortNewestFirst(formatted);
    forall i | 0 <= i < |s|
      ensures !s[i].direction.Other?
    {
      assert s[i] in multiset(formatted);
      var j :| 0 <= j < |formatted| && formatted[j] == s[i];
      var item := fetched[j];
      assert s[i] == FormatTransaction(item.transaction, item.blockIndex, item.timestamp, currentAddress, nowSeconds);
    }
    KeepPartition(s);
  }

  // ---------------------------------------------------------------------
  // Pending entries
  // ---------------------------------------------------------------------

  /** The entry `addPendingTransaction` puts at the front, made at `nowMillis`. */
  function PendingEntry(from: string, to: string, amount: real, nowMillis: int): (e: Entry)
    ensures e.direction == Sent && e.status == Pending && e.isPending && e.block == AwaitingBlock
    ensures e.id == "pending_" + Decimal(nowMillis)
    ensures e.timestamp == nowMillis as real / 1000.0
  {
    Entry("pending_" + Decimal(nowMillis), Sent, from, to, amount, nowMillis as real / 1000.0,
          AwaitingBlock, false, false, Pending, true)
  }

  /** `filter(tx => tx.id !== txId)`: no longer than the list, and no entry kept has id `txId`. */
  function WithoutId(s: seq<Entry>, txId: string): (r: seq<Entry>)
    ensures |r| <= |s|
    ensures forall i :: 0 <= i < |r| ==> r[i].id != txId
  {
    if s == [] then []
    else (if s[0].id != txId then [s[0]] else []) + WithoutId(s[1..], txId)
  }

  /** Removal keeps exactly the entries whose id differs. */
  lemma {:induction false} WithoutIdMembers(s: seq<Entry>, txId: string)
    ensures forall x :: x in WithoutId(s, txId) <==> x in s && x.id != txId
  {
    if s != [] {
      WithoutIdMembers(s[1..], txId);
      assert s == [s[0]] + s[1..];
    }
  }

  lemma {:induction false} WithoutIdAppend(a: seq<Entry>, b: seq<Entry>, txId: string)
    ensures WithoutId(a + b, txId) == WithoutId(a, txId) + WithoutId(b, txId)
  {
    if a != [] {
      var head := if a[0].id != txId then [a[0]] else [];
      WithoutIdAppend(a[1..], b, txId);
      assert WithoutId(a + b, txId) == head + WithoutId(a[1..] + b, txId) by {
        assert (a + b)[0] == a[0] && (a + b)[1..] == a[1..] + b;
      }
      assert WithoutId(a, txId) == head + WithoutId(a[1..], txId);
    } else {
      assert a + b == b;
    }
  }

  /** Removing an id that no entry has leaves the list as it was. */
  lemma {:induction false} WithoutAbsentId(s: seq<Entry>, txId: string)
    requires forall i :: 0 <= i < |s| ==> s[i].id != txId
    ensures WithoutId(s, txId) == s
  {
    if s != [] {
      WithoutAbsentId(s[1..], txId);
      assert s == [s[0]] + s[1..];
    }
  }

  /** `findIndex(tx => tx.id === txId)`, None for -1. */
  function FirstIndex(s: seq<Entry>, txId: string): (r: Option<nat>)
    ensures r.Some? ==>
      r.value < |s| && s[r.value].id == txId && forall j :: 0 <= j < r.value ==> s[j].id != txId
    ensures r.None? ==> forall j :: 0 <= j < |s| ==> s[j].id != txId
  {
    if s == [] then None
    else if s[0].id == txId then Some(0)
    else match FirstIndex(s[1..], txId)
      case None => None
      case Some(k) => Some(k + 1)
  }

  function Or<T>(o: Option<T>, fallback: T): T {
    if o.Some? then o.value else fallback
  }

  /** `{...e, ...patch, status: 'confirmed', isPending: false}` */
  function Confirm(e: Entry, patch: Patch): (c: Entry)
    ensures c.status == Confirmed && !c.isPending
    ensures c.id == Or(patch.id, e.id)
    ensures c.direction == if patch.kind.Some? then TypeOf(patch.kind.value) else e.direction
    ensures TypeName(c.direction) == Or(patch.kind, TypeName(e.direction))
    ensures c.from == Or(patch.from, e.from) && c.to == Or(patch.to, e.to)
    ensures c.amount == Or(patch.amount, e.amount) && c.timestamp == Or(patch.timestamp, e.timestamp)
    ensures c.block == Or(patch.block, e.block)
    ensures c.isMiningReward == Or(patch.isMiningReward, e.isMiningReward)
    ensures c.isGenesis == Or(patch.isGenesis, e.isGenesis)
  {
    var direction := if patch.kind.Some? then TypeOf(patch.kind.value) else e.direction;
    Entry(Or(patch.id, e.id), direction, Or(patch.from, e.from), Or(patch.to, e.to),
          Or(patch.amount, e.amount), Or(patch.timestamp, e.timestamp), Or(patch.block, e.block),
          Or(patch.isMiningReward, e.isMiningReward), Or(patch.isGenesis, e.isGenesis), Confirmed, false)
  }

  // ---------------------------------------------------------------------
  // shortenAddress
  // ---------------------------------------------------------------------

  const NETWORK_LABEL: string := "NETWORK \U{1F3DB}\U{FE0F}"

  /**
   * 'Unknown' for a missing address, the label for NETWORK, and any other
   * address as its first eight characters, '...', and its last six, each
   * part clamped to the address (a short address appears in both parts).
   */
  function ShortenAddress(address: string): (short: string)
    ensures address == "" ==> short == "Unknown"
    ensures address == NETWORK ==> short == NETWORK_LABEL
    ensures address != "" && address != NETWORK ==>
      var k, m := Min(8, |address|), Min(6, |address|);
      short == address[..k] + "..." + address[|address| - m..] && |short| == k + 3 + m
  {
    if address == "" then "Unknown"
    else if address == NETWORK then NETWORK_LABEL
    else Substring(address, 0, 8) + "..." + Substring(address, |address| - 6, |address|)
  }

  function Min(a: int, b: int): int {
    if a < b then a else b
  }

  /** A long address keeps exactly 8 + 6 of its characters. */
  lemma ShortenLong(address: string)
    requires |address| >= 14
    ensures |ShortenAddress(address)| == 17
    ensures ShortenAddress(address)[..8] == address[..8]
    ensures ShortenAddress(address)[8..11] == "..."
    ensures ShortenAddress(address)[11..] == address[|address| - 6..]
  {
    assert address != NETWORK;
  }

  // ---------------------------------------------------------------------
  // The manager
  // ---------------------------------------------------------------------

  class TransactionManager {
    var transactions: seq<Entry>
    var currentFilter: string

    constructor()
      ensures transactions == [] && currentFilter == "all"
    {
      transactions := [];
      currentFilter := "all";
    }

    /**
     * Rebuilds the list from the fetched response, one formatted entry per
     * item, then sorts it newest first. Without a current wallet, or when
     * the request fails (`response` is None), the list is kept.
     */
    method UpdateTransactions(currentAddress: Option<string>, response: Option<seq<Fetched>>, nowSeconds: real)
      modifies this
      ensures currentAddress.None? || response.None? ==> transactions == old(transactions)
      ensures currentAddress.Some? && response.Some? ==>
        transactions == SortNewestFirst(FormatAll(response.value, currentAddress.value, nowSeconds))
      ensures currentAddress.Some? && response.Some? ==>
        NewestFirst(transactions)
        && multiset(transactions) == multiset(FormatAll(response.value, currentAddress.value, nowSeconds))
      ensures currentFilter == old(currentFilter)
    {
      if currentAddress == None || response == None {
        return;
      }
      var address, fetched := currentAddress.value, response.value;
      transactions := [];
      var i := 0;
      while i < |fetched|
        invariant 0 <= i <= |fetched|
        invariant transactions == FormatAll(fetched[..i], address, nowSeconds)
        invariant currentFilter == old(currentFilter)
      {
        var item := fetched[i];
        var tx := FormatTransaction(item.transaction, item.blockIndex, item.timestamp, address, nowSeconds);
        transactions := transactions + [tx];
        i := i + 1;
      }
      assert fetched[..i] == fetched;
      transactions := SortNewestFirst(transactions);
    }

    /** What the history view shows: the entries the current filter selects, or all of them. */
    function HistoryView(): (shown: seq<Entry>)
      reads this
      ensures forall x :: x in shown ==> x in transactions
      ensures currentFilter == "sent" ==> forall x :: x in transactions && x.direction == Sent ==> x in shown
      ensures currentFilter == "received" ==> forall x :: x in transactions && x.direction == Received ==> x in shown
      ensures currentFilter != "sent" && currentFilter != "received" ==> shown == transactions
      ensures currentFilter == "sent" || currentFilter == "received" ==>
        forall x :: x in shown ==> x.direction == (if currentFilter == "sent" then Sent else Received)
    {
      KeepMembers(transactions, Sent);
      KeepMembers(transactions, Received);
      History(transactions, currentFilter)
    }

    method FilterTransactions(filter: string)
      modifies this
      ensures currentFilter == filter && transactions == old(transactions)
    {
      currentFilter := filter;
    }

    /** Puts a pending sent entry at the front and returns its id. */
    method AddPendingTransaction(from: string, to: string, amount: real, nowMillis: int) returns (id: string)
      modifies this
      ensures transactions == [PendingEntry(from, to, amount, nowMillis)] + old(transactions)
      ensures id == transactions[0].id
      ensures currentFilter == old(currentFilter)
    {
      var pending := PendingEntry(from, to, amount, nowMillis);
      transactions := [pending] + transactions;
      id := pending.id;
    }

    /** Drops every entry with id `txId`. */
    method RemovePendingTransaction(txId: string)
      modifies this
      ensures transactions == WithoutId(old(transactions), txId)
      ensures forall x :: x in transactions <==> x in old(transactions) && x.id != txId
      ensures currentFilter == old(currentFilter)
    {
      WithoutIdMembers(transactions, txId);
      transactions := WithoutId(transactions, txId);
    }

    /** Confirms the first entry with id `txId`, overlaying `patch`; nothing else changes. */
    method ConfirmPendingTransaction(txId: string, patch: Patch)
      modifies this
      ensures |transactions| == |old(transactions)|
      ensures FirstIndex(old(transactions), txId).None? ==> transactions == old(transactions)
      ensures FirstIndex(old(transactions), txId).Some? ==>
        var k := FirstIndex(old(transactions), txId).value;
        transactions == old(transactions)[k := Confirm(old(transactions)[k], patch)]
      ensures currentFilter == old(currentFilter)
    {
      var index := FirstIndex(transactions, txId);
      if index.Some? {
        var k := index.value;
        transactions := transactions[k := Confirm(transactions[k], patch)];
      }
    }
  }

  /**
   * A pending entry added and then removed by its id: the removal also takes
   * any older entry with the same id, so the old list comes back exactly
   * when no entry of it has that id.
   */
  lemma AddThenRemove(s: seq<Entry>, from: string, to: string, amount: real, nowMillis: int)
    ensures var e := PendingEntry(from, to, amount, nowMillis);
      WithoutId([e] + s, e.id) == WithoutId(s, e.id)
    ensures var e := PendingEntry(from, to, amount, nowMillis);
      WithoutId([e] + s, e.id) == s <==> forall i :: 0 <= i < |s| ==> s[i].id != e.id
  {
    var e := PendingEntry(from, to, amount, nowMillis);
    assert ([e] + s)[1..] == s;
    if forall i :: 0 <= i < |s| ==> s[i].id != e.id {
      WithoutAbsentId(s, e.id);
    } else {
      var i :| 0 <= i < |s| && s[i].id == e.id;
      WithoutIdMembers(s, e.id);
      assert s[i] !in WithoutId(s, e.id);
    }
  }

  /** Confirming changes only the matched entry, which ends confirmed and not pending. */
  lemma ConfirmOnlyMatch(s: seq<Entry>, txId: string, patch: Patch)
    requires FirstIndex(s, txId).Some?
    ensures var k := FirstIndex(s, txId).value; var t := s[k := Confirm(s[k], patch)];
      t[k].status == Confirmed && !t[k].isPending
      && forall j :: 0 <= j < |s| && j != k ==> t[j] == s[j]
  {
  }

  /**
   * A confirmation whose `type` is neither 'sent' nor 'received' takes the
   * entry out of both selections, so neither pane nor the 'sent' and
   * 'received' histories show it.
   */
  lemma ConfirmOtherTypeHidden(s: seq<Entry>, txId: string, patch: Patch)
    requires FirstIndex(s, txId).Some?
    requires patch.kind.Some? && patch.kind.value != "sent" && patch.kind.value != "received"
    ensures var k := FirstIndex(s, txId).value; var t := s[k := Confirm(s[k], patch)];
      t[k] in t && t[k] !in Keep(t, Sent) && t[k] !in Keep(t, Received)
  {
    var k := FirstIndex(s, txId).value;
    var t := s[k := Confirm(s[k], patch)];
    KeepMembers(t, Sent);
    KeepMembers(t, Received);
  }
}
