/**
 The on-chain report (filterOnChain in accounting/filter.go, the entry constructors of
 accounting/entries.go, newHarmonyEntry in accounting/report.go and onChainReport in
 accounting/on_chain.go): what the wallet's transactions book as credits and debits.
 */
module OnChainReport {
  import opened Wrappers

  datatype AccountingError = ReceiveWithFee | FiatFailed | FeeLookupFailed

  // A wallet transaction: amounts in sats, negative for sends, whose amount includes the fee.
  datatype Transaction = Transaction(txHash: string, timestamp: int, amount: int, fee: int, confirmations: nat,
                                     ourInputs: seq<bool>, ourOutputs: seq<bool>)

  datatype EntryType = LocalChannelOpen | RemoteChannelOpen | ChannelOpenFee | ChannelClose | ChannelCloseFee
                     | Receipt | Payment | Fee | Sweep | SweepFee

  // A line of the report, its amount in msat without its sign.
  datatype Entry = Entry(timestamp: int, amount: nat, txid: string, reference: string, entryType: EntryType,
                         onChain: bool, credit: bool, btcPrice: real)

  datatype Initiator = Local | Remote | Unknown

  // What is known about transactions by their hash, the optional fee lookup, and the fiat prices, None
  // being a failure.
  datatype ChainInfo = ChainInfo(openedChannels: map<string, string>, closedChannels: map<string, Initiator>,
                                 sweeps: set<string>, getFee: Option<map<string, int>>, getFiat: int -> Option<real>)

  function SignedAmount(e: Entry): int {
    var amount: int := e.amount;
    if e.credit then amount else -amount
  }

  // The signed sum of a report.
  function Signed(entries: seq<Entry>): int {
    if entries == [] then 0 else Signed(entries[..|entries| - 1]) + SignedAmount(entries[|entries| - 1])
  }

  predicate IsFee(t: EntryType) {
    t.ChannelOpenFee? || t.ChannelCloseFee? || t.Fee? || t.SweepFee?
  }

  function FeePart(e: Entry): int {
    if IsFee(e.entryType) then SignedAmount(e) else 0
  }

  // The signed sum of its fee entries.
  function Fees(entries: seq<Entry>): int {
    if entries == [] then 0 else Fees(entries[..|entries| - 1]) + FeePart(entries[|entries| - 1])
  }

  // Each entry's type and reference.
  function Labels(entries: seq<Entry>): seq<(EntryType, string)> {
    seq(|entries|, i requires 0 <= i < |entries| => (entries[i].entryType, entries[i].reference))
  }

  function SatsToMsat(sats: int): int {
    sats * 1000
  }

  function InvertedSatsToMsats(sats: int): int {
    SatsToMsat(sats) * -1
  }

  function FeeReference(reference: string): string {
    reference + ":-1"
  }

  method NewHarmonyEntry(tx: Transaction, amountMsat: int, e: EntryType, reference: string, info: ChainInfo)
    returns (r: Result<Entry, AccountingError>)
    ensures info.getFiat(tx.timestamp).None? ==> r == Err(FiatFailed)
    ensures info.getFiat(tx.timestamp).Some? ==>
      r.Ok? && Describes(r.value, tx, info) && SignedAmount(r.value) == amountMsat &&
      (r.value.credit <==> amountMsat >= 0) && r.value.entryType == e && r.value.reference == reference
  {
    var absAmt, credit := amountMsat, true;
    if absAmt < 0 {
      absAmt := absAmt * -1;
      credit := false;
    }
    var price := info.getFiat(tx.timestamp);
    match price {
      case None => r := Err(FiatFailed);
      case Some(p) => r := Ok(Entry(tx.timestamp, absAmt, tx.txHash, reference, e, true, credit, p));
    }
  }

  // An on-chain entry of the transaction.
  ghost predicate Describes(e: Entry, tx: Transaction, info: ChainInfo) {
    e.timestamp == tx.timestamp && e.txid == tx.txHash && e.onChain &&
    info.getFiat(tx.timestamp) == Some(e.btcPrice) && (e.credit <==> SignedAmount(e) >= 0)
  }

  /* What each kind of transaction books. */

  datatype Kind = OpenTx(channel: string) | CloseTx(initiator: Initiator) | SweepTx | GenericTx

  // A channel open is looked for first, then a close, then a sweep.
  function KindOf(tx: Transaction, info: ChainInfo): Kind {
    if tx.txHash in info.openedChannels then OpenTx(info.openedChannels[tx.txHash])
    else if tx.txHash in info.closedChannels then CloseTx(info.closedChannels[tx.txHash])
    else if tx.txHash in info.sweeps then SweepTx
    else GenericTx
  }

  predicate WhollyOurs(tx: Transaction) {
    (forall i :: 0 <= i < |tx.ourInputs| ==> tx.ourInputs[i]) &&
    (forall i :: 0 <= i < |tx.ourOutputs| ==> tx.ourOutputs[i])
  }

  // A fee is looked up for a sweep and for the close of a channel that we opened.
  predicate LooksUpFee(kind: Kind, info: ChainInfo) {
    info.getFee.Some? && (kind.SweepTx? || kind == CloseTx(Local))
  }

  // The fee in sats that a transaction's entries show.
  function Charged(tx: Transaction, kind: Kind, info: ChainInfo): int {
    match kind
    case OpenTx(_) => if tx.amount < 0 then tx.fee else 0
    case GenericTx => if tx.amount != 0 || WhollyOurs(tx) then tx.fee else 0
    case _ =>
      if LooksUpFee(kind, info) && tx.txHash in info.getFee.value then info.getFee.value[tx.txHash] else 0
  }

  function FeeLabel(tx: Transaction, t: EntryType, present: bool): seq<(EntryType, string)> {
    if present then [(t, FeeReference(tx.txHash))] else []
  }

  // Which entries it has.
  function LabelsOf(tx: Transaction, kind: Kind, info: ChainInfo): seq<(EntryType, string)> {
    match kind
    case OpenTx(channel) =>
      [(if tx.amount < 0 then LocalChannelOpen else RemoteChannelOpen, channel)] +
      FeeLabel(tx, ChannelOpenFee, tx.amount < 0)
    case CloseTx(_) => [(ChannelClose, tx.txHash)] + FeeLabel(tx, ChannelCloseFee, LooksUpFee(kind, info))
    case SweepTx => [(Sweep, tx.txHash)] + FeeLabel(tx, SweepFee, LooksUpFee(kind, info))
    case GenericTx =>
      if tx.amount == 0 then FeeLabel(tx, Fee, WhollyOurs(tx))
      else [(if tx.amount < 0 then Payment else Receipt, tx.txHash)] + FeeLabel(tx, Fee, tx.fee != 0)
  }

  // The entries of one transaction: its amount split into a main entry and the charged fee.
  ghost predicate Books(entries: seq<Entry>, tx: Transaction, kind: Kind, info: ChainInfo) {
    Labels(entries) == LabelsOf(tx, kind, info) &&
    (forall e :: e in entries ==> Describes(e, tx, info)) &&
    Signed(entries) == 1000 * (tx.amount - Charged(tx, kind, info)) &&
    Fees(entries) == -1000 * Charged(tx, kind, info)
  }

  // Entries need a fiat price, and looked up fees an answer.
  predicate Fails(tx: Transaction, kind: Kind, info: ChainInfo) {
    (info.getFiat(tx.timestamp).None? && LabelsOf(tx, kind, info) != []) ||
    (LooksUpFee(kind, info) && tx.txHash !in info.getFee.value)
  }

  ghost predicate BooksOrFails(r: Result<seq<Entry>, AccountingError>, tx: Transaction, kind: Kind, info: ChainInfo) {
    if Fails(tx, kind, info) then r.Err? else r.Ok? && Books(r.value, tx, kind, info)
  }

  // Both entries, unless creating the second one failed.
  function WithFee(entry: Entry, fee: Result<Entry, AccountingError>): Result<seq<Entry>, AccountingError> {
    match fee
    case Err(e) => Err(e)
    case Ok(f) => Ok([entry, f])
  }

  lemma OneEntry(e: Entry)
    ensures Signed([e]) == SignedAmount(e) && Fees([e]) == FeePart(e)
    ensures Labels([e]) == [(e.entryType, e.reference)]
  {
    assert [e][..0] == [];
  }

  lemma TwoEntries(e: Entry, f: Entry)
    ensures Signed([e, f]) == SignedAmount(e) + SignedAmount(f)
    ensures Fees([e, f]) == FeePart(e) + FeePart(f)
    ensures Labels([e, f]) == [(e.entryType, e.reference), (f.entryType, f.reference)]
  {
    assert [e, f][..1] == [e];
    OneEntry(e);
  }

  lemma BothEntries(e: Entry, fee: Result<Entry, AccountingError>)
    ensures fee.Ok? ==> Signed([e, fee.value]) == SignedAmount(e) + SignedAmount(fee.value)
    ensures fee.Ok? ==> Fees([e, fee.value]) == FeePart(e) + FeePart(fee.value)
    ensures fee.Ok? ==>
      Labels([e, fee.value]) == [(e.entryType, e.reference), (fee.value.entryType, fee.value.reference)]
  {
    if fee.Ok? {
      TwoEntries(e, fee.value);
    }
  }

  method ChannelOpenEntries(channel: string, tx: Transaction, info: ChainInfo)
    returns (r: Result<seq<Entry>, AccountingError>)
    ensures BooksOrFails(r, tx, OpenTx(channel), info)
  {
    hide Signed, Fees, Labels;
    var amtMsat := SatsToMsat(tx.amount);
    var initiator := amtMsat < 0;
    var entryType := LocalChannelOpen;
    if !initiator {
      entryType := RemoteChannelOpen;
    }
    var openEntry := NewHarmonyEntry(tx, amtMsat, entryType, channel, info);
    if openEntry.Err? {
      return Err(openEntry.error);
    }
    if !initiator {
      OneEntry(openEntry.value);
      return Ok([openEntry.value]);
    }
    var feeMsat := InvertedSatsToMsats(tx.fee);
    var feeEntry := NewHarmonyEntry(tx, feeMsat, ChannelOpenFee, FeeReference(tx.txHash), info);
    BothEntries(openEntry.value, feeEntry);
    r := WithFee(openEntry.value, feeEntry);
  }

  method GetFee(tx: Transaction, lookup: map<string, int>) returns (r: Result<int, AccountingError>)
    ensures r == if tx.txHash in lookup then Ok(lookup[tx.txHash]) else Err(FeeLookupFailed)
  {
    r := if tx.txHash in lookup then Ok(lookup[tx.txHash]) else Err(FeeLookupFailed);
  }

  method ClosedChannelEntries(initiator: Initiator, tx: Transaction, info: ChainInfo)
    returns (r: Result<seq<Entry>, AccountingError>)
    ensures BooksOrFails(r, tx, CloseTx(initiator), info)
  {
    hide Signed, Fees, Labels;
    var amtMsat := SatsToMsat(tx.amount);
    var closeEntry := NewHarmonyEntry(tx, amtMsat, ChannelClose, tx.txHash, info);
    if closeEntry.Err? {
      return Err(closeEntry.error);
    }
    OneEntry(closeEntry.value);
    if initiator != Local {
      return Ok([closeEntry.value]);
    }
    if info.getFee.None? {
      return Ok([closeEntry.value]);
    }
    var fees := GetFee(tx, info.getFee.value);
    if fees.Err? {
      return Err(fees.error);
    }
    var feeAmt := InvertedSatsToMsats(fees.value);
    var feeEntry := NewHarmonyEntry(tx, feeAmt, ChannelCloseFee, FeeReference(tx.txHash), info);
    BothEntries(closeEntry.value, feeEntry);
    r := WithFee(closeEntry.value, feeEntry);
  }

  method SweepEntries(tx: Transaction, info: ChainInfo) returns (r: Result<seq<Entry>, AccountingError>)
    ensures BooksOrFails(r, tx, SweepTx, info)
  {
    hide Signed, Fees, Labels;
    var txEntry := NewHarmonyEntry(tx, SatsToMsat(tx.amount), Sweep, tx.txHash, info);
    if txEntry.Err? {
      return Err(txEntry.error);
    }
    OneEntry(txEntry.value);
    if info.getFee.None? {
      return Ok([txEntry.value]);
    }
    var fee := GetFee(tx, info.getFee.value);
    if fee.Err? {
      return Err(fee.error);
    }
    var feeEntry := NewHarmonyEntry(tx, InvertedSatsToMsats(fee.value), SweepFee, FeeReference(tx.txHash), info);
    BothEntries(txEntry.value, feeEntry);
    r := WithFee(txEntry.value, feeEntry);
  }

  method IsUtxoManagementTx(tx: Transaction) returns (ours: bool)
    ensures ours == WhollyOurs(tx)
  {
    for i := 0 to |tx.ourInputs|
      invariant forall k :: 0 <= k < i ==> tx.ourInputs[k]
    {
      if !tx.ourInputs[i] {
        return false;
      }
    }
    for i := 0 to |tx.ourOutputs|
      invariant forall k :: 0 <= k < i ==> tx.ourOutputs[k]
    {
      if !tx.ourOutputs[i] {
        return false;
      }
    }
    ours := true;
  }

  method OnChainEntries(tx: Transaction, info: ChainInfo) returns (r: Result<seq<Entry>, AccountingError>)
    ensures BooksOrFails(r, tx, GenericTx, info)
  {
    hide Signed, Fees, Labels, WhollyOurs;
    var amtMsat := SatsToMsat(tx.amount);
    NoEntries();
    if amtMsat == 0 {
      var utxoManagement := IsUtxoManagementTx(tx);
      if !utxoManagement {
        return Ok([]);
      }
      var only := NewHarmonyEntry(tx, InvertedSatsToMsats(tx.fee), Fee, FeeReference(tx.txHash), info);
      if only.Err? {
        return Err(only.error);
      }
      OneEntry(only.value);
      return Ok([only.value]);
    }
    var txEntry := NewHarmonyEntry(tx, amtMsat, if amtMsat < 0 then Payment else Receipt, tx.txHash, info);
    if txEntry.Err? {
      return Err(txEntry.error);
    }
    OneEntry(txEntry.value);
    if tx.fee == 0 {
      return Ok([txEntry.value]);
    }
    var feeEntry := NewHarmonyEntry(tx, InvertedSatsToMsats(tx.fee), Fee, FeeReference(tx.txHash), info);
    BothEntries(txEntry.value, feeEntry);
    r := WithFee(txEntry.value, feeEntry);
  }

  lemma NoEntries()
    ensures Signed([]) == 0 && Fees([]) == 0 && Labels([]) == []
  {
  }

  /* Filtering. */

  predicate InRange(timestamp: int, start: int, end: int) {
    start <= timestamp < end
  }

  // An unconfirmed transaction has no timestamp and is given the current one.
  function TimeOf(tx: Transaction, now: int): int {
    if tx.confirmations == 0 then now else tx.timestamp
  }

  predicate Included(tx: Transaction, start: int, end: int, now: int) {
    InRange(TimeOf(tx, now), start, end)
  }

  // A receive is not expected to carry a fee.
  predicate Refused(tx: Transaction) {
    tx.amount > 0 && tx.fee != 0
  }

  // The sats that come off a send because its fee is part of its amount.
  function Deducted(tx: Transaction): int {
    if tx.amount < 0 then tx.fee else 0
  }

  function Adjusted(tx: Transaction, now: int): Transaction {
    tx.(timestamp := TimeOf(tx, now), amount := tx.amount + Deducted(tx))
  }

  function Kept(txns: seq<Transaction>, start: int, end: int, now: int): seq<Transaction> {
    if txns == [] then []
    else
      var n := |txns| - 1;
      var rest := Kept(txns[..n], start, end, now);
      if Included(txns[n], start, end, now) then rest + [Adjusted(txns[n], now)] else rest
  }

  // A list is filtered transaction by transaction; one is kept when its time, or the current time while it
  // is unconfirmed, lies in [start, end), and the amount of a send has its fee taken off.
  lemma {:induction false} KeptAppend(a: seq<Transaction>, b: seq<Transaction>, start: int, end: int, now: int)
    ensures Kept(a + b, start, end, now) == Kept(a, start, end, now) + Kept(b, start, end, now)
    decreases |b|
  {
    hide Included, Adjusted;
    if b == [] {
      assert a + b == a;
    } else {
      KeptAppend(a, b[..|b| - 1], start, end, now);
      assert (a + b)[..|a + b| - 1] == a + b[..|b| - 1];
    }
  }

  lemma KeptOne(tx: Transaction, start: int, end: int, now: int)
    ensures var time := if tx.confirmations > 0 then tx.timestamp else now;
      var amount := if tx.amount < 0 then tx.amount + tx.fee else tx.amount;
      Kept([tx], start, end, now)
      == if start <= time && time < end then [tx.(timestamp := time, amount := amount)] else []
  {
    assert Kept([tx][..0], start, end, now) == [];
  }

  method FilterOnChain(start: int, end: int, now: int, txns: seq<Transaction>)
    returns (r: Result<seq<Transaction>, AccountingError>)
    ensures r == Err(ReceiveWithFee) <==> exists tx :: tx in txns && Included(tx, start, end, now) && Refused(tx)
    ensures r != Err(ReceiveWithFee) ==> r == Ok(Kept(txns, start, end, now))
  {
    var filtered: seq<Transaction> := [];
    for i := 0 to |txns|
      invariant filtered == Kept(txns[..i], start, end, now)
      invariant forall k :: 0 <= k < i ==> !(Included(txns[k], start, end, now) && Refused(txns[k]))
    {
      var tx := txns[i];
      assert txns[..i + 1][..i] == txns[..i];
      if tx.confirmations == 0 {
        tx := tx.(timestamp := now);
      }
      if !InRange(tx.timestamp, start, end) {
        continue;
      }
      if tx.amount < 0 {
        tx := tx.(amount := tx.amount + tx.fee);
      } else if tx.amount > 0 {
        if tx.fee != 0 {
          assert txns[i] in txns && Included(txns[i], start, end, now) && Refused(txns[i]);
          return Err(ReceiveWithFee);
        }
      }
      filtered := filtered + [tx];
    }
    assert txns[..|txns|] == txns;
    r := Ok(filtered);
  }

  /* The report. */

  // The entries come in groups, one for each transaction in turn.
  ghost predicate Grouped(report: seq<Entry>, txns: seq<Transaction>, info: ChainInfo)
    decreases |txns|
  {
    if txns == [] then report == []
    else
      var n := |txns| - 1;
      exists k :: 0 <= k <= |report| && Grouped(report[..k], txns[..n], info) &&
        Books(report[k..], txns[n], KindOf(txns[n], info), info)
  }

  method ReportOnChain(txns: seq<Transaction>, info: ChainInfo) returns (r: Result<seq<Entry>, AccountingError>)
    ensures r.Err? <==> exists tx :: tx in txns && Fails(tx, KindOf(tx, info), info)
    ensures r.Ok? ==> Grouped(r.value, txns, info)
  {
    hide Books, Fails, Grouped;
    var report: seq<Entry> := [];
    EmptyGroup(info);
    for i := 0 to |txns|
      invariant Grouped(report, txns[..i], info)
      invariant forall k :: 0 <= k < i ==> !Fails(txns[k], KindOf(txns[k], info), info)
    {
      var txn := txns[i];
      var entries;
      if txn.txHash in info.openedChannels {
        entries := ChannelOpenEntries(info.openedChannels[txn.txHash], txn, info);
      } else if txn.txHash in info.closedChannels {
        entries := ClosedChannelEntries(info.closedChannels[txn.txHash], txn, info);
      } else if txn.txHash in info.sweeps {
        entries := SweepEntries(txn, info);
      } else {
        entries := OnChainEntries(txn, info);
      }
      if entries.Err? {
        assert txn in txns && Fails(txn, KindOf(txn, info), info);
        return Err(entries.error);
      }
      NextGroup(report, entries.value, txns[..i], txn, info);
      assert txns[..i + 1] == txns[..i] + [txn];
      report := report + entries.value;
    }
    assert txns[..|txns|] == txns;
    r := Ok(report);
  }

  lemma EmptyGroup(info: ChainInfo)
    ensures Grouped([], [], info)
  {
  }

  lemma NextGroup(report: seq<Entry>, entries: seq<Entry>, txns: seq<Transaction>, tx: Transaction, info: ChainInfo)
    requires Grouped(report, txns, info) && Books(entries, tx, KindOf(tx, info), info)
    ensures Grouped(report + entries, txns + [tx], info)
  {
    hide Books;
    var next, k := report + entries, |report|;
    assert next[..k] == report && next[k..] == entries;
    assert (txns + [tx])[..|txns|] == txns;
  }

  /* What the entries say, line by line. */

  // Which types of entry are due for a transaction: of the channel that it opens; else of the channel that
  // it closes; else of the sweep that it is; else of a payment. A zero amount is not an entry of its own.
  predicate Due(tx: Transaction, t: EntryType, info: ChainInfo) {
    var h := tx.txHash;
    var opens, closes, sweeps := h in info.openedChannels, h in info.closedChannels, h in info.sweeps;
    match t
    case LocalChannelOpen => opens && tx.amount < 0
    case RemoteChannelOpen => opens && tx.amount >= 0
    case ChannelOpenFee => opens && tx.amount < 0
    case ChannelClose => !opens && closes
    case ChannelCloseFee => !opens && closes && info.closedChannels[h] == Local && info.getFee.Some?
    case Sweep => !opens && !closes && sweeps
    case SweepFee => !opens && !closes && sweeps && info.getFee.Some?
    case Payment => !opens && !closes && !sweeps && tx.amount < 0
    case Receipt => !opens && !closes && !sweeps && tx.amount > 0
    case Fee => !opens && !closes && !sweeps && if tx.amount == 0 then WhollyOurs(tx) else tx.fee != 0
  }

  // The signed sats of an entry: a fee is a debit, of the transaction's own fee or of the one looked up.
  predicate Owed(e: Entry, tx: Transaction, info: ChainInfo) {
    match e.entryType
    case ChannelOpenFee => SignedAmount(e) == -1000 * tx.fee
    case Fee => SignedAmount(e) == -1000 * tx.fee
    case ChannelCloseFee =>
      info.getFee.Some? && tx.txHash in info.getFee.value && SignedAmount(e) == -1000 * info.getFee.value[tx.txHash]
    case SweepFee =>
      info.getFee.Some? && tx.txHash in info.getFee.value && SignedAmount(e) == -1000 * info.getFee.value[tx.txHash]
    case _ => SignedAmount(e) == 1000 * tx.amount
  }

  // What an entry refers to: the channel opened, or the transaction, with an output of -1 for its fee.
  predicate Refers(e: Entry, tx: Transaction, info: ChainInfo) {
    match e.entryType
    case LocalChannelOpen => tx.txHash in info.openedChannels && e.reference == info.openedChannels[tx.txHash]
    case RemoteChannelOpen => tx.txHash in info.openedChannels && e.reference == info.openedChannels[tx.txHash]
    case ChannelOpenFee => e.reference == tx.txHash + ":-1"
    case ChannelCloseFee => e.reference == tx.txHash + ":-1"
    case SweepFee => e.reference == tx.txHash + ":-1"
    case Fee => e.reference == tx.txHash + ":-1"
    case _ => e.reference == tx.txHash
  }

  ghost predicate Line(e: Entry, tx: Transaction, info: ChainInfo) {
    Due(tx, e.entryType, info) && Owed(e, tx, info) && Refers(e, tx, info) && Describes(e, tx, info)
  }

  predicate HasType(entries: seq<Entry>, k: nat, t: EntryType) {
    k < |entries| && entries[k].entryType == t
  }

  // A transaction's entries are lines of it, and it has exactly one of each type that is due, a fee last.
  ghost predicate Lines(entries: seq<Entry>, tx: Transaction, info: ChainInfo) {
    (forall e :: e in entries ==> Line(e, tx, info)) &&
    (forall t :: Due(tx, t, info) ==> exists k: nat :: HasType(entries, k, t)) &&
    |entries| <= 2 &&
    (|entries| == 2 ==> !IsFee(entries[0].entryType) && IsFee(entries[1].entryType))
  }

  lemma BooksLines(entries: seq<Entry>, tx: Transaction, info: ChainInfo)
    requires Books(entries, tx, KindOf(tx, info), info) && !Fails(tx, KindOf(tx, info), info)
    ensures Lines(entries, tx, info)
  {
    hide Signed, Fees, Labels, Describes;
    LabelsAt(entries, LabelsOf(tx, KindOf(tx, info), info));
    if |entries| == 1 {
      assert entries == [entries[0]];
      OneEntry(entries[0]);
    } else if |entries| == 2 {
      assert entries == [entries[0], entries[1]];
      TwoEntries(entries[0], entries[1]);
    }
    forall t | Due(tx, t, info)
      ensures exists k: nat :: HasType(entries, k, t)
    {
      assert HasType(entries, 0, t) || HasType(entries, 1, t);
    }
  }

  lemma LabelsAt(entries: seq<Entry>, labels: seq<(EntryType, string)>)
    requires Labels(entries) == labels
    ensures |entries| == |labels|
    ensures forall k :: 0 <= k < |entries| ==> (entries[k].entryType, entries[k].reference) == labels[k]
  {
    forall k | 0 <= k < |entries|
      ensures (entries[k].entryType, entries[k].reference) == labels[k]
    {
      assert Labels(entries)[k] == labels[k];
    }
  }

  // Every entry of a report is a line of one of its transactions, and every line that is due is there.
  lemma {:induction false} ReportLines(report: seq<Entry>, txns: seq<Transaction>, info: ChainInfo)
    requires Grouped(report, txns, info)
    requires forall tx :: tx in txns ==> !Fails(tx, KindOf(tx, info), info)
    ensures forall e :: e in report ==> exists tx :: tx in txns && Line(e, tx, info)
    ensures forall tx, t :: tx in txns && Due(tx, t, info) ==>
      exists e :: e in report && e.entryType == t && Line(e, tx, info)
    decreases |txns|
  {
    hide Books, Fails, Line, Due;
    if txns != [] {
      var n := |txns| - 1;
      var tx := txns[n];
      var k :| 0 <= k <= |report| && Grouped(report[..k], txns[..n], info) && Books(report[k..], tx, KindOf(tx, info), info);
      assert txns == txns[..n] + [tx] && report == report[..k] + report[k..];
      ReportLines(report[..k], txns[..n], info);
      BooksLines(report[k..], tx, info);
      forall t | Due(tx, t, info)
        ensures exists e :: e in report && e.entryType == t && Line(e, tx, info)
      {
        var i: nat :| HasType(report[k..], i, t);
        assert report[k..][i] in report[k..];
      }
    }
  }

  // A transaction cannot be reported exactly when an entry is due and there is no price for its time, or
  // the fee of a close or sweep is to be looked up and is not known.
  lemma FailsExactly(tx: Transaction, info: ChainInfo)
    ensures Fails(tx, KindOf(tx, info), info)
       <==> (info.getFiat(tx.timestamp).None? && exists t :: Due(tx, t, info)) ||
            ((Due(tx, ChannelCloseFee, info) || Due(tx, SweepFee, info)) && tx.txHash !in info.getFee.value)
  {
    var labels := LabelsOf(tx, KindOf(tx, info), info);
    if labels != [] {
      assert Due(tx, labels[0].0, info);
    }
  }

  // A debit or credit shows in the type of a payment.
  lemma SignShows(e: Entry, tx: Transaction, info: ChainInfo)
    requires Line(e, tx, info)
    ensures e.entryType.Payment? || e.entryType.LocalChannelOpen? ==> !e.credit && e.amount == -1000 * tx.amount
    ensures e.entryType.Receipt? || e.entryType.RemoteChannelOpen? ==> e.credit && e.amount == 1000 * tx.amount
  {
  }

  // What a list of transactions books in sats, and the fees among it.
  ghost function Booked(txns: seq<Transaction>, info: ChainInfo): int {
    if txns == [] then 0
    else
      var tx := txns[|txns| - 1];
      Booked(txns[..|txns| - 1], info) + tx.amount - Charged(tx, KindOf(tx, info), info)
  }

  ghost function FeesBooked(txns: seq<Transaction>, info: ChainInfo): int {
    if txns == [] then 0
    else
      var tx := txns[|txns| - 1];
      FeesBooked(txns[..|txns| - 1], info) + Charged(tx, KindOf(tx, info), info)
  }

  lemma {:induction false} SignedConcat(a: seq<Entry>, b: seq<Entry>)
    ensures Signed(a + b) == Signed(a) + Signed(b)
    ensures Fees(a + b) == Fees(a) + Fees(b)
    decreases |b|
  {
    if b == [] {
      assert a + b == a;
    } else {
      assert (a + b)[..|a + b| - 1] == a + b[..|b| - 1];
      SignedConcat(a, b[..|b| - 1]);
    }
  }

  lemma {:induction false} GroupedSums(report: seq<Entry>, txns: seq<Transaction>, info: ChainInfo)
    requires Grouped(report, txns, info)
    ensures Signed(report) == 1000 * Booked(txns, info)
    ensures Fees(report) == -1000 * FeesBooked(txns, info)
    decreases |txns|
  {
    hide Charged, KindOf, Labels, LabelsOf, Describes, Signed, Fees;
    NoEntries();
    if txns != [] {
      var n := |txns| - 1;
      var k :| 0 <= k <= |report| && Grouped(report[..k], txns[..n], info) &&
        Books(report[k..], txns[n], KindOf(txns[n], info), info);
      GroupedSums(report[..k], txns[..n], info);
      SignedConcat(report[..k], report[k..]);
      assert report == report[..k] + report[k..];
    }
  }

  /* Conservation. */

  // Whether a fee is taken off an amount by the filter exactly when an entry shows it again. An open
  // loses a positive fee that reaches its amount. A generic send loses a fee that is all of its amount
  // unless it is wholly internal; a wholly internal transaction of amount zero shows a fee that was
  // never taken off.
  predicate FeeKept(tx: Transaction, kind: Kind) {
    match kind
    case OpenTx(_) => tx.amount >= 0 || tx.fee == 0 || tx.amount + tx.fee < 0
    case _ =>
      if tx.amount < 0 then tx.amount + tx.fee != 0 || WhollyOurs(tx)
      else tx.amount > 0 || tx.fee == 0 || !WhollyOurs(tx)
  }

  // The sats that a transaction's entries sum to.
  function Shown(tx: Transaction, now: int, info: ChainInfo): int {
    var a := Adjusted(tx, now);
    a.amount - Charged(a, KindOf(tx, info), info)
  }

  lemma FeeSplitConserves(tx: Transaction, info: ChainInfo, now: int)
    requires !Refused(tx)
    ensures var kind := KindOf(tx, info);
      kind.OpenTx? || kind.GenericTx? ==> (Shown(tx, now, info) == tx.amount <==> FeeKept(tx, kind))
  {
  }

  // A wallet that has opened some channels, with a price for every time and no fee lookup.
  function Wallet(channels: map<string, string>): ChainInfo {
    ChainInfo(channels, map[], {}, None, (t: int) => Some(1.0))
  }

  // An open and a send that are all fee show nothing of it, and a wholly internal transaction of
  // amount zero shows a fee that lnd's amount does not have.
  lemma FeesGoAstray(now: int)
    ensures var info, tx := Wallet(map["a" := "channel"]), Transaction("a", now, -5, 5, 1, [true], [false]);
      !Refused(tx) && !Fails(Adjusted(tx, now), KindOf(tx, info), info) && Shown(tx, now, info) == 0
    ensures var info, tx := Wallet(map[]), Transaction("a", now, -5, 5, 1, [true], [false]);
      !Refused(tx) && !Fails(Adjusted(tx, now), KindOf(tx, info), info) && Shown(tx, now, info) == 0
    ensures var info, tx := Wallet(map[]), Transaction("a", now, 0, 5, 1, [true], [true]);
      !Refused(tx) && !Fails(Adjusted(tx, now), KindOf(tx, info), info) && Shown(tx, now, info) == -5
  {
    var tx := Transaction("a", now, -5, 5, 1, [true], [false]);
    assert !tx.ourOutputs[0];
  }

  // What lnd reports for the transactions of a range.
  ghost function Reported(txns: seq<Transaction>, start: int, end: int, now: int): int {
    if txns == [] then 0
    else
      var n := |txns| - 1;
      Reported(txns[..n], start, end, now) + if Included(txns[n], start, end, now) then txns[n].amount else 0
  }

  // The difference between what the entries show and what lnd reports.
  ghost function Lost(txns: seq<Transaction>, start: int, end: int, now: int, info: ChainInfo): int {
    if txns == [] then 0
    else
      var n := |txns| - 1;
      var tx := txns[n];
      Lost(txns[..n], start, end, now, info) +
      if Included(tx, start, end, now) then Charged(Adjusted(tx, now), KindOf(tx, info), info) - Deducted(tx) else 0
  }

  lemma {:induction false} KeptBooked(txns: seq<Transaction>, start: int, end: int, now: int, info: ChainInfo)
    ensures Booked(Kept(txns, start, end, now), info)
         == Reported(txns, start, end, now) - Lost(txns, start, end, now, info)
    decreases |txns|
  {
    hide Charged, KindOf, Included;
    if txns != [] {
      var n := |txns| - 1;
      var tx, rest := txns[n], Kept(txns[..n], start, end, now);
      KeptBooked(txns[..n], start, end, now, info);
      BookedStep(rest, Adjusted(tx, now), info);
      SameKind(tx, now, info);
    }
  }

  lemma BookedStep(txns: seq<Transaction>, tx: Transaction, info: ChainInfo)
    ensures Booked(txns + [tx], info) == Booked(txns, info) + tx.amount - Charged(tx, KindOf(tx, info), info)
  {
    assert (txns + [tx])[..|txns|] == txns;
  }

  lemma SameKind(tx: Transaction, now: int, info: ChainInfo)
    ensures KindOf(Adjusted(tx, now), info) == KindOf(tx, info)
  {
  }

  // The transactions of the range are opens and generic ones that keep their fees.
  ghost predicate SplitsWell(txns: seq<Transaction>, start: int, end: int, now: int, info: ChainInfo) {
    forall tx :: tx in txns && Included(tx, start, end, now) ==>
      var kind := KindOf(tx, info);
      (kind.OpenTx? || kind.GenericTx?) && FeeKept(tx, kind)
  }

  lemma {:induction false} NothingLost(txns: seq<Transaction>, start: int, end: int, now: int, info: ChainInfo)
    requires forall tx :: tx in txns && Included(tx, start, end, now) ==> !Refused(tx)
    requires SplitsWell(txns, start, end, now, info)
    ensures Lost(txns, start, end, now, info) == 0
    decreases |txns|
  {
    if txns != [] {
      var n := |txns| - 1;
      assert txns[n] in txns && forall tx :: tx in txns[..n] ==> tx in txns;
      NothingLost(txns[..n], start, end, now, info);
      if Included(txns[n], start, end, now) {
        FeeSplitConserves(txns[n], info, now);
      }
    }
  }

  predicate Unreportable(tx: Transaction, now: int, info: ChainInfo) {
    Refused(tx) || Fails(Adjusted(tx, now), KindOf(tx, info), info)
  }

  // OnChainReport over [start, end): filter, then report.
  method OnChainReport(start: int, end: int, now: int, txns: seq<Transaction>, info: ChainInfo)
    returns (r: Result<seq<Entry>, AccountingError>)
    ensures r.Err? <==> exists tx :: tx in txns && Included(tx, start, end, now) && Unreportable(tx, now, info)
    ensures r.Ok? ==> Grouped(r.value, Kept(txns, start, end, now), info)
    ensures r.Ok? ==>
      Signed(r.value) == 1000 * (Reported(txns, start, end, now) - Lost(txns, start, end, now, info))
    ensures r.Ok? && SplitsWell(txns, start, end, now, info) ==>
      Signed(r.value) == 1000 * Reported(txns, start, end, now)
  {
    hide Kept, Grouped, Fails, Signed, Lost, SplitsWell;
    var kept := FilterOnChain(start, end, now, txns);
    KeptMembers(txns, start, end, now);
    if kept.Err? {
      return Err(kept.error);
    }
    r := ReportOnChain(kept.value, info);
    if r.Ok? {
      GroupedSums(r.value, kept.value, info);
      KeptBooked(txns, start, end, now, info);
      if SplitsWell(txns, start, end, now, info) {
        NothingLost(txns, start, end, now, info);
      }
    }
  }

  lemma {:induction false} KeptMembers(txns: seq<Transaction>, start: int, end: int, now: int)
    ensures forall tx :: tx in txns && Included(tx, start, end, now) ==> Adjusted(tx, now) in Kept(txns, start, end, now)
    ensures forall a :: a in Kept(txns, start, end, now) ==>
      exists tx :: tx in txns && Included(tx, start, end, now) && a == Adjusted(tx, now)
    decreases |txns|
  {
    if txns != [] {
      var n := |txns| - 1;
      KeptMembers(txns[..n], start, end, now);
      assert txns == txns[..n] + [txns[n]];
    }
  }
}
