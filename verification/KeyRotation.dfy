/**
 * Re-sealing every stored secret under a new key (cmd/rotate-key/main.go): one
 * pass per column, all in one transaction, committed only with -apply.
 */
module KeyRotation {
  import opened Wrappers
  import opened Envelope
  import opened SecretKey
  import SortedInts

  type Rows = map<Slot, Text>

  // ---------------------------------------------------- one value at a time

  /** reEncrypt: the columns without context. */
  function ReEncrypt(oldKey: Key, newKey: Key, stored: Text, nonce: Option<int>): Option<Text> {
    match Decrypt(oldKey, "", stored)
    case None => None
    case Some(plain) => Encrypt(newKey, "", nonce, plain)
  }

  /** reEncryptSetting: whatever the envelope, it comes out as v2 and bound to its key. */
  function ReEncryptSetting(oldKey: Key, newKey: Key, id: string, stored: Text, nonce: Option<int>): Option<Text> {
    if !HasMark(stored, SettingV2) && !HasMark(stored, SettingV1) then None
    else
      match Decrypt(oldKey, if HasMark(stored, SettingV2) then id else "", stored.body)
      case None => None
      case Some(plain) =>
        match Encrypt(newKey, id, nonce, plain)
        case None => None
        case Some(ct) => Some(Marked(SettingV2, ct))
  }

  /** reSealScrobbleCredential and reEncryptAgentSecret: bound to column and row. */
  function ReSealBound(oldKey: Key, newKey: Key, slot: Slot, stored: Text, nonce: Option<int>): Option<Text> {
    match Decrypt(oldKey, Context(slot), stored)
    case None => None
    case Some(plain) => Encrypt(newKey, Context(slot), nonce, plain)
  }

  /** What becomes of a row: a new value, none (skipped), or the run failing. */
  datatype Conversion = New(value: Text) | Skip | Abort

  function Convert(oldKey: Key, newKey: Key, slot: Slot, stored: Text, nonce: Option<int>): Conversion {
    if slot.column.ArrApiKey? then
      match OpenArr(oldKey, slot.id, stored)
      case None => Skip
      case Some(plain) =>
        match SealArr(newKey, slot.id, nonce, plain)
        case None => Abort
        case Some(sealed) => if sealed == stored then Skip else New(sealed)
    else
      match (if slot.column.Settings? then ReEncryptSetting(oldKey, newKey, slot.id, stored, nonce)
             else if Raw(slot.column) then ReEncrypt(oldKey, newKey, stored, nonce)
             else ReSealBound(oldKey, newKey, slot, stored, nonce))
      case None => Skip
      case Some(value) => New(value)
  }

  /** The rows a column's SELECT yields: marked settings, and non-empty values elsewhere. */
  predicate Selected(slot: Slot, stored: Text) {
    if slot.column.Settings? then HasMark(stored, SettingV1) || HasMark(stored, SettingV2) else stored != EMPTY
  }

  /** A row's new value: the plaintext the old key gave, sealed with the new key for the same slot. */
  ghost predicate Rotated(oldKey: Key, newKey: Key, slot: Slot, before: Text, after: Text) {
    exists plain, nonce :: Reads(oldKey, slot, before) == Some(plain) && after == Resealed(newKey, slot, plain, nonce)
  }

  /** Why a selected row may be skipped: the old key does not open it, or it is already what it would become. */
  ghost predicate RightlySkipped(oldKey: Key, newKey: Key, slot: Slot, stored: Text) {
    Reads(oldKey, slot, stored).None? || Rotated(oldKey, newKey, slot, stored, stored)
  }

  lemma ConvertMeans(oldKey: Key, newKey: Key, slot: Slot, stored: Text, nonce: Option<int>)
    requires Selected(slot, stored)
    ensures var c := Convert(oldKey, newKey, slot, stored, nonce);
            && (c.New? ==> Rotated(oldKey, newKey, slot, stored, c.value))
            && (c.New? && slot.column.ArrApiKey? ==> c.value != stored)
            && (c.Skip? && (nonce.Some? || slot.column.ArrApiKey?) ==> RightlySkipped(oldKey, newKey, slot, stored))
            && (c.Abort? <==> slot.column.ArrApiKey? && nonce.None?
                              && Reads(oldKey, slot, stored).Some? && Reads(oldKey, slot, stored) != Some(EMPTY))
  {
    var c := Convert(oldKey, newKey, slot, stored, nonce);
    var n := if nonce.Some? then nonce.value else 0;
    if Reads(oldKey, slot, stored).Some? {
      var plain := Reads(oldKey, slot, stored).value;
      if c.New? {
        assert c.value == Resealed(newKey, slot, plain, n);
      } else if c.Skip? && nonce.Some? {
        assert stored == Resealed(newKey, slot, plain, n);
      }
    }
  }

  // ------------------------------------------------------------- the run

  /** What the random source gives for each row's one encryption, None where it fails. */
  type Nonces = Slot -> Option<int>

  /**
   * What a run leaves of the rows: `done` are rotated and everything else is as
   * it was, every selected row not done being one the old key does not open or
   * one the random source failed on (which for an API key ends the run).
   */
  ghost predicate RunLeaves(oldKey: Key, newKey: Key, before: Rows, after: Rows, done: set<Slot>, nonces: Nonces) {
    && after.Keys == before.Keys
    && (forall slot <- done :: slot in before && Selected(slot, before[slot]) && Rotated(oldKey, newKey, slot, before[slot], after[slot]))
    && (forall slot <- before :: slot !in done ==> after[slot] == before[slot])
    && (forall slot <- before :: Selected(slot, before[slot]) && slot !in done && (nonces(slot).Some? || slot.column.ArrApiKey?) ==>
          RightlySkipped(oldKey, newKey, slot, before[slot]))
  }

  function SelectedIn(rows: Rows, columns: set<Column>): set<Slot> {
    set slot | slot in rows && slot.column in columns && Selected(slot, rows[slot])
  }

  /** A failing commit stores nothing, or everything with the reply lost. */
  datatype CommitFate = Committed | NotCommitted | ReplyLost

  /** How all a run asks of others will go: connecting, each column's SELECT, each row's nonce and UPDATE, the commit. */
  datatype Luck = Luck(begins: bool, selects: Column -> bool, nonces: Nonces, updates: Slot -> bool, commit: CommitFate)

  /** Something fails that the tool may give up on. */
  ghost predicate Unlucky(luck: Luck) {
    || !luck.begins || !luck.commit.Committed?
    || (exists c :: !luck.selects(c)) || (exists slot :: !luck.updates(slot) || luck.nonces(slot).None?)
  }

  /** The transaction's view of the database. */
  class Tx {
    var rows: Rows
    const luck: Luck

    constructor (rows: Rows, luck: Luck)
      ensures this.rows == rows && this.luck == luck
    {
      this.rows, this.luck := rows, luck;
    }

    /** UPDATE of one row; false is a database error, after which the tool exits. */
    method Update(slot: Slot, value: Text) returns (ok: bool)
      modifies this
      ensures ok == luck.updates(slot)
      ensures rows == if ok && slot in old(rows) then old(rows)[slot := value] else old(rows)
    {
      ok := luck.updates(slot);
      if ok && slot in rows {
        rows := rows[slot := value];
      }
    }
  }

  /** The rows looked at so far, and those rotated. */
  datatype Ledger = Ledger(seen: set<Slot>, done: set<Slot>)

  /** RunLeaves, as far as the ledger goes. */
  ghost predicate Progress(oldKey: Key, newKey: Key, before: Rows, now: Rows, l: Ledger, nonces: Nonces) {
    && now.Keys == before.Keys && l.done <= l.seen && l.seen <= before.Keys
    && (forall slot <- l.done :: slot in before && Selected(slot, before[slot]) && Rotated(oldKey, newKey, slot, before[slot], now[slot]))
    && (forall slot <- before :: slot !in l.done ==> now[slot] == before[slot])
    && (forall slot <- l.seen :: slot in before && slot !in l.done && (nonces(slot).Some? || slot.column.ArrApiKey?) ==>
          RightlySkipped(oldKey, newKey, slot, before[slot]))
  }

  lemma Untouched(oldKey: Key, newKey: Key, before: Rows, now: Rows, l: Ledger, nonces: Nonces, slot: Slot)
    requires Progress(oldKey, newKey, before, now, l, nonces) && slot !in l.seen
    ensures slot in now <==> slot in before
    ensures slot in before ==> now[slot] == before[slot]
  {
  }

  /** A column none of whose rows has been seen still selects what it would have at the start. */
  lemma SelectsTheSame(oldKey: Key, newKey: Key, before: Rows, now: Rows, l: Ledger, nonces: Nonces, column: Column)
    requires Progress(oldKey, newKey, before, now, l, nonces) && forall slot <- l.seen :: slot.column != column
    ensures SelectedIn(now, {column}) == SelectedIn(before, {column}) && l.done <= l.seen
    ensures l.seen !! SelectedIn(before, {column})
    ensures forall slot <- SelectedIn(before, {column}) :: slot in before && Selected(slot, before[slot])
  {
    assert l.done <= l.seen;
    hide Progress, Selected;
    forall slot: Slot | slot.column == column
      ensures slot in now <==> slot in before
      ensures slot in before ==> now[slot] == before[slot]
    {
      Untouched(oldKey, newKey, before, now, l, nonces, slot);
    }
  }

  lemma SkipProgress(oldKey: Key, newKey: Key, before: Rows, now: Rows, l: Ledger, nonces: Nonces, slot: Slot)
    requires Progress(oldKey, newKey, before, now, l, nonces) && slot !in l.seen && slot in before && Selected(slot, before[slot])
    requires Convert(oldKey, newKey, slot, before[slot], nonces(slot)).Skip?
    ensures Progress(oldKey, newKey, before, now, Ledger(l.seen + {slot}, l.done), nonces)
  {
    ConvertMeans(oldKey, newKey, slot, before[slot], nonces(slot));
  }

  lemma RotateProgress(oldKey: Key, newKey: Key, before: Rows, now: Rows, l: Ledger, nonces: Nonces, slot: Slot)
    requires Progress(oldKey, newKey, before, now, l, nonces) && slot !in l.seen && slot in before && Selected(slot, before[slot])
    requires Convert(oldKey, newKey, slot, before[slot], nonces(slot)).New?
    ensures var value := Convert(oldKey, newKey, slot, before[slot], nonces(slot)).value;
            Progress(oldKey, newKey, before, now[slot := value], Ledger(l.seen + {slot}, l.done + {slot}), nonces)
  {
    ConvertMeans(oldKey, newKey, slot, before[slot], nonces(slot));
    hide Convert, Selected, Rotated, RightlySkipped;
  }

  /** The body of a job's loop. None is the job failing, otherwise whether the row was rotated. */
  method RotateRow(tx: Tx, oldKey: Key, newKey: Key, slot: Slot, ghost before: Rows, ghost l: Ledger)
    returns (rotated: Option<bool>, ghost after: Ledger)
    requires Progress(oldKey, newKey, before, tx.rows, l, tx.luck.nonces)
    requires slot !in l.seen && slot in before && Selected(slot, before[slot])
    modifies tx
    ensures rotated.Some? ==>
              && Progress(oldKey, newKey, before, tx.rows, after, tx.luck.nonces) && after.seen == l.seen + {slot}
              && after.done == if rotated.value then l.done + {slot} else l.done
    ensures rotated.None? ==> !tx.luck.updates(slot) || tx.luck.nonces(slot).None?
  {
    hide Progress, Convert, Selected;
    Untouched(oldKey, newKey, before, tx.rows, l, tx.luck.nonces, slot);
    after := l;
    match Convert(oldKey, newKey, slot, tx.rows[slot], tx.luck.nonces(slot))
    case Skip =>
      SkipProgress(oldKey, newKey, before, tx.rows, l, tx.luck.nonces, slot);
      after := Ledger(l.seen + {slot}, l.done);
      return Some(false), after;
    case Abort =>
      ConvertMeans(oldKey, newKey, slot, before[slot], tx.luck.nonces(slot));
      return None, after;
    case New(value) =>
      RotateProgress(oldKey, newKey, before, tx.rows, l, tx.luck.nonces, slot);
      var ok := tx.Update(slot, value);
      after := Ledger(l.seen + {slot}, l.done + {slot});
      return if ok then Some(true) else None, after;
  }

  lemma GaveUp(luck: Luck, column: Column, slot: Slot)
    requires !luck.selects(column) || !luck.updates(slot) || luck.nonces(slot).None?
    ensures Unlucky(luck)
  {
  }

  /** One job: rotate a column. None is the job failing; the counts are those it prints. */
  method RotateColumn(tx: Tx, oldKey: Key, newKey: Key, column: Column, ghost before: Rows, ghost l: Ledger)
    returns (counts: Option<(nat, nat)>, ghost after: Ledger)
    requires Progress(oldKey, newKey, before, tx.rows, l, tx.luck.nonces)
    requires forall slot <- l.seen :: slot.column != column
    modifies tx
    ensures counts.Some? ==>
              && after.seen == l.seen + SelectedIn(before, {column})
              && Progress(oldKey, newKey, before, tx.rows, after, tx.luck.nonces)
              && l.done <= after.done && counts.value.0 == |after.done - l.done|
              && counts.value.0 + counts.value.1 == |SelectedIn(before, {column})|
    ensures counts.None? ==> Unlucky(tx.luck)
  {
    hide Progress, Selected, SelectedIn, Unlucky;
    after := l;
    if !tx.luck.selects(column) {
      GaveUp(tx.luck, column, Slot(column, ""));
      return None, after;
    }
    ghost var selected := SelectedIn(before, {column});
    var todo := SelectedIn(tx.rows, {column});
    SelectsTheSame(oldKey, newKey, before, tx.rows, l, tx.luck.nonces, column);
    var rotated, skipped := 0, 0;
    while todo != {}
      invariant todo <= selected && after.seen + todo == l.seen + selected && after.seen !! todo
      invariant Progress(oldKey, newKey, before, tx.rows, after, tx.luck.nonces)
      invariant l.done <= after.done <= after.seen && rotated == |after.done - l.done| && rotated + skipped + |todo| == |selected|
      decreases |todo|
    {
      var slot := SortedInts.Any(todo);
      NextRow(l.seen + selected, after.seen, todo, slot);
      todo := todo - {slot};
      ghost var done := after.done;
      var outcome;
      outcome, after := RotateRow(tx, oldKey, newKey, slot, before, after);
      if outcome.None? {
        GaveUp(tx.luck, column, slot);
        return None, after;
      }
      if outcome.value {
        OneMoreDone(l.done, done, slot);
        rotated := rotated + 1;
      } else {
        skipped := skipped + 1;
      }
    }
    counts := Some((rotated, skipped));
  }

  lemma NextRow(all: set<Slot>, seen: set<Slot>, todo: set<Slot>, slot: Slot)
    requires slot in todo && seen + todo == all && seen !! todo
    ensures slot !in seen && (seen + {slot}) + (todo - {slot}) == all && seen + {slot} !! todo - {slot}
    ensures |todo - {slot}| == |todo| - 1
  {
  }

  lemma OneMoreDone(had: set<Slot>, done: set<Slot>, slot: Slot)
    requires had <= done && slot !in done
    ensures |(done + {slot}) - had| == |done - had| + 1
  {
    assert (done + {slot}) - had == (done - had) + {slot};
  }

  const JOBS: seq<Column> := [Settings, Webhook, Totp, ListenBrainz, LastFm, TraktAccess, TraktRefresh, ArrApiKey, AgentSecret]

  /** How the tool ends; Refused is its usage exit. */
  datatype Ending = Refused | Applied(rotated: nat, skipped: nat) | DryRun(rotated: nat, skipped: nat) | Fatal

  class Database {
    var rows: Rows
    const luck: Luck

    constructor (rows: Rows, luck: Luck)
      ensures this.rows == rows && this.luck == luck
    {
      this.rows, this.luck := rows, luck;
    }

    method Commit(tx: Tx) returns (ok: bool)
      modifies this
      ensures ok <==> luck.commit.Committed?
      ensures rows == if luck.commit.NotCommitted? then old(rows) else tx.rows
    {
      ok := luck.commit.Committed?;
      if !luck.commit.NotCommitted? {
        rows := tx.rows;
      }
    }
  }

  function Columns(jobs: seq<Column>): set<Column> { set c | c in jobs }

  /**
   * main: the checks on what it is given, the job loop and its commit. An applied
   * run rotates exactly the rows it counts as rotated; a dry run changes
   * nothing; a failed one changes nothing or, when the commit's reply was
   * lost, everything.
   */
  method RotateKeys(db: Database, codecs: Codecs, oldText: string, newText: string, dsn: string, apply: bool)
    returns (ending: Ending, ghost l: Ledger)
    modifies db
    ensures ending.Refused? <==> oldText == "" || newText == "" || dsn == "" || oldText == newText
    ensures ending.Applied? || db.rows != old(db.rows) ==>
              && apply && !ending.Refused? && !db.luck.commit.NotCommitted?
              && RunLeaves(DeriveKey32(codecs, oldText), DeriveKey32(codecs, newText), old(db.rows), db.rows, l.done, db.luck.nonces)
    ensures ending.Applied? || ending.DryRun? ==>
              && (ending.Applied? <==> apply) && (apply ==> db.luck.commit.Committed?) && ending.rotated == |l.done|
              && ending.rotated + ending.skipped == |SelectedIn(old(db.rows), Columns(JOBS))|
    ensures ending.Fatal? ==> Unlucky(db.luck) && (db.luck.commit.Committed? ==> db.rows == old(db.rows))
  {
    hide Progress, SelectedIn, JOBS, DeriveKey32;
    l := Ledger({}, {});
    if oldText == "" || newText == "" || dsn == "" || oldText == newText {
      return Refused, l;
    }
    var oldKey, newKey := DeriveKey32(codecs, oldText), DeriveKey32(codecs, newText);
    if !db.luck.begins {
      return Fatal, l;
    }
    ghost var before := db.rows;
    var tx := new Tx(db.rows, db.luck);
    NothingYet(oldKey, newKey, before, db.luck.nonces);
    var rotated, skipped := 0, 0;
    var k := 0;
    while k < |JOBS|
      invariant 0 <= k <= |JOBS| && db.rows == before
      invariant l.seen == SelectedIn(before, Columns(JOBS[..k]))
      invariant Progress(oldKey, newKey, before, tx.rows, l, db.luck.nonces)
      invariant rotated == |l.done| && rotated + skipped == |l.seen|
    {
      JobIsNew(before, k);
      ghost var was := l;
      var counts;
      counts, l := RotateColumn(tx, oldKey, newKey, JOBS[k], before, l);
      if counts.None? {
        return Fatal, l;
      }
      rotated, skipped := rotated + counts.value.0, skipped + counts.value.1;
      Disjoint(was.seen, SelectedIn(before, {JOBS[k]}), l.seen);
      Disjoint(was.done, l.done - was.done, l.done);
      k := k + 1;
    }
    assert JOBS[..k] == JOBS;
    AllJobsDone(oldKey, newKey, before, tx.rows, l, db.luck.nonces);
    if apply {
      var ok := db.Commit(tx);
      if !ok {
        return Fatal, l;
      }
      return Applied(rotated, skipped), l;
    }
    return DryRun(rotated, skipped), l;
  }

  lemma NothingYet(oldKey: Key, newKey: Key, rows: Rows, nonces: Nonces)
    ensures Progress(oldKey, newKey, rows, rows, Ledger({}, {}), nonces)
    ensures SelectedIn(rows, Columns(JOBS[..0])) == {}
  {
  }

  lemma AllJobsDone(oldKey: Key, newKey: Key, before: Rows, now: Rows, l: Ledger, nonces: Nonces)
    requires Progress(oldKey, newKey, before, now, l, nonces) && l.seen == SelectedIn(before, Columns(JOBS))
    ensures RunLeaves(oldKey, newKey, before, now, l.done, nonces)
  {
    hide Selected, Rotated, RightlySkipped;
    EveryColumn();
  }

  lemma Disjoint(a: set<Slot>, b: set<Slot>, c: set<Slot>)
    requires a !! b && c == a + b
    ensures |c| == |a| + |b|
  {
  }

  lemma JobIsNew(rows: Rows, k: nat)
    requires k < |JOBS|
    ensures forall slot <- SelectedIn(rows, Columns(JOBS[..k])) :: slot.column != JOBS[k]
    ensures SelectedIn(rows, Columns(JOBS[..k + 1])) == SelectedIn(rows, Columns(JOBS[..k])) + SelectedIn(rows, {JOBS[k]})
    ensures SelectedIn(rows, Columns(JOBS[..k])) !! SelectedIn(rows, {JOBS[k]})
  {
    hide Selected;
    assert JOBS[..k + 1] == JOBS[..k] + [JOBS[k]];
    assert JOBS[k] !in JOBS[..k] by {
      forall i | 0 <= i < k ensures JOBS[i] != JOBS[k] {}
    }
  }

  lemma EveryColumn()
    ensures forall c: Column :: c in JOBS
  {
    forall c: Column ensures c in JOBS {
      match c
      case Settings => assert JOBS[0] == c;
      case Webhook => assert JOBS[1] == c;
      case Totp => assert JOBS[2] == c;
      case ListenBrainz => assert JOBS[3] == c;
      case LastFm => assert JOBS[4] == c;
      case TraktAccess => assert JOBS[5] == c;
      case TraktRefresh => assert JOBS[6] == c;
      case ArrApiKey => assert JOBS[7] == c;
      case AgentSecret => assert JOBS[8] == c;
    }
  }

  // ------------------------------------------------------ what it means

  /** Nothing selected changes its plaintext under the key that opens it, and rotated settings are v2. */
  lemma MeaningKept(oldKey: Key, newKey: Key, before: Rows, after: Rows, done: set<Slot>, nonces: Nonces, slot: Slot)
    requires RunLeaves(oldKey, newKey, before, after, done, nonces) && slot in before
    ensures slot in done ==>
              Reads(oldKey, slot, before[slot]).Some? && Reads(newKey, slot, after[slot]) == Reads(oldKey, slot, before[slot])
    ensures slot in done && slot.column.Settings? ==> HasMark(after[slot], SettingV2)
    ensures slot !in done ==> after[slot] == before[slot]
    ensures (nonces(slot).Some? || slot.column.ArrApiKey?) && Selected(slot, before[slot]) && Reads(oldKey, slot, before[slot]).Some? ==>
              Reads(newKey, slot, after[slot]) == Reads(oldKey, slot, before[slot])
  {
    if slot in done {
      var plain, nonce :| Reads(oldKey, slot, before[slot]) == Some(plain) && after[slot] == Resealed(newKey, slot, plain, nonce);
      ResealedReads(newKey, oldKey, slot, plain, nonce);
    } else if (nonces(slot).Some? || slot.column.ArrApiKey?) && Selected(slot, before[slot]) && Reads(oldKey, slot, before[slot]).Some? {
      var plain, nonce :| Reads(oldKey, slot, before[slot]) == Some(plain) && before[slot] == Resealed(newKey, slot, plain, nonce);
      ResealedReads(newKey, oldKey, slot, plain, nonce);
    }
  }

  /** A row the SELECT passes over is read without a key, or by no key at all. */
  lemma UnselectedNeedsNoKey(k: Key, other: Key, slot: Slot, stored: Text)
    requires !Selected(slot, stored)
    ensures Reads(k, slot, stored) == Reads(other, slot, stored)
  {
  }

  /**
   * No secret is lost: whatever the server could read before an applied run it
   * reads after it under the new key, in every row whose encryption the random
   * source served and every API key; and no setting that it could read is left
   * in the v1 form.
   */
  lemma NoSecretIsLost(oldKey: Key, newKey: Key, before: Rows, after: Rows, done: set<Slot>, nonces: Nonces, slot: Slot)
    requires RunLeaves(oldKey, newKey, before, after, done, nonces) && slot in before && (nonces(slot).Some? || slot.column.ArrApiKey?)
    requires Reads(oldKey, slot, before[slot]).Some?
    ensures Reads(newKey, slot, after[slot]) == Reads(oldKey, slot, before[slot])
    ensures slot.column.Settings? && before[slot].Marked? && before[slot].mark.SettingV1? ==>
              after[slot].Marked? && after[slot].mark.SettingV2?
  {
    MeaningKept(oldKey, newKey, before, after, done, nonces, slot);
    if !Selected(slot, before[slot]) {
      UnselectedNeedsNoKey(oldKey, newKey, slot, before[slot]);
    }
  }

  /** With distinct keys the old key opens nothing that is left to select, */
  lemma OldKeyOpensNothing(oldKey: Key, newKey: Key, before: Rows, after: Rows, done: set<Slot>, nonces: Nonces, slot: Slot)
    requires oldKey != newKey && RunLeaves(oldKey, newKey, before, after, done, nonces)
    requires nonces(slot).Some? && slot in after && Selected(slot, after[slot])
    ensures Reads(oldKey, slot, after[slot]) == None
  {
    if slot in done {
      var plain, nonce :| Reads(oldKey, slot, before[slot]) == Some(plain) && after[slot] == Resealed(newKey, slot, plain, nonce);
      ResealedReads(newKey, oldKey, slot, plain, nonce);
    } else if Reads(oldKey, slot, before[slot]).Some? {
      var plain, nonce :| Reads(oldKey, slot, before[slot]) == Some(plain) && before[slot] == Resealed(newKey, slot, plain, nonce);
      ResealedReads(newKey, oldKey, slot, plain, nonce);
    }
  }

  /** so a second run rotates nothing. */
  lemma SecondRunRotatesNothing(oldKey: Key, newKey: Key, before: Rows, after: Rows, done: set<Slot>, nonces: Nonces,
                                again: Rows, redone: set<Slot>, moreNonces: Nonces)
    requires oldKey != newKey && RunLeaves(oldKey, newKey, before, after, done, nonces) && forall slot <- before :: nonces(slot).Some?
    requires RunLeaves(oldKey, newKey, after, again, redone, moreNonces)
    ensures redone == {} && again == after
  {
    if slot :| slot in redone {
      OldKeyOpensNothing(oldKey, newKey, before, after, done, nonces, slot);
    }
  }

  /** An API key that is sealed but empty comes out as the empty cleartext, which is not selected any more. */
  predicate SealsNothing(key: Key, slot: Slot, stored: Text) {
    slot.column.ArrApiKey? && Reads(key, slot, stored) == Some(EMPTY)
  }

  /** Under both keys the row is rotated, and what it becomes is rotated once more. */
  predicate RotatesAgain(oldKey: Key, newKey: Key, slot: Slot, stored: Text, first: int, second: int) {
    && Convert(oldKey, newKey, slot, stored, Some(first)).New?
    && var value := Convert(oldKey, newKey, slot, stored, Some(first)).value;
       Selected(slot, value) && Convert(oldKey, newKey, slot, value, Some(second)).New?
  }

  /**
   * Distinct texts are not enough, though they are all the tool asks for: of a
   * row that the first run rotates, the second run rotates the outcome again
   * exactly when both texts derive one key and the row holds a secret.
   */
  lemma RotatesAgainExactly(codecs: Codecs, oldText: string, newText: string, slot: Slot, stored: Text, first: int, second: int)
    requires var (o, n) := (DeriveKey32(codecs, oldText), DeriveKey32(codecs, newText));
             Selected(slot, stored) && Convert(o, n, slot, stored, Some(first)).New? && first != second
    ensures var (o, n) := (DeriveKey32(codecs, oldText), DeriveKey32(codecs, newText));
            RotatesAgain(o, n, slot, stored, first, second) <==> o == n && !SealsNothing(o, slot, stored)
  {
    hide DeriveKey32;
    var oldKey, newKey := DeriveKey32(codecs, oldText), DeriveKey32(codecs, newText);
    var value := Convert(oldKey, newKey, slot, stored, Some(first)).value;
    ConvertMeans(oldKey, newKey, slot, stored, Some(first));
    var plain, nonce :| Reads(oldKey, slot, stored) == Some(plain) && value == Resealed(newKey, slot, plain, nonce);
    if oldKey != newKey {
      ResealedReads(newKey, oldKey, slot, plain, nonce);
    }
  }

  /** Texts that reach no decoder: exactly those that share their first 32 bytes, whatever follows. */
  lemma ShortTextsRotateAgainExactly(codecs: Codecs, oldText: string, newText: string, slot: Slot, stored: Text, first: int, second: int)
    requires 32 <= |oldText| < 43 && 32 <= |newText| < 43 && first != second
    requires var (o, n) := (DeriveKey32(codecs, oldText), DeriveKey32(codecs, newText));
             Selected(slot, stored) && Convert(o, n, slot, stored, Some(first)).New? && !SealsNothing(o, slot, stored)
    ensures var (o, n) := (DeriveKey32(codecs, oldText), DeriveKey32(codecs, newText));
            RotatesAgain(o, n, slot, stored, first, second) <==> oldText[..32] == newText[..32]
  {
    RotatesAgainExactly(codecs, oldText, newText, slot, stored, first, second);
    hide Convert, Selected, SealsNothing, RotatesAgain;
    SameRawKeyExactly(codecs, oldText, newText);
  }

  /** Hex texts: exactly those that differ in letter case alone. */
  lemma HexTextsRotateAgainExactly(codecs: Codecs, oldText: string, newText: string, slot: Slot, stored: Text, first: int, second: int)
    requires HexKey(oldText) && HexKey(newText) && first != second
    requires var (o, n) := (DeriveKey32(codecs, oldText), DeriveKey32(codecs, newText));
             Selected(slot, stored) && Convert(o, n, slot, stored, Some(first)).New? && !SealsNothing(o, slot, stored)
    ensures var (o, n) := (DeriveKey32(codecs, oldText), DeriveKey32(codecs, newText));
            RotatesAgain(o, n, slot, stored, first, second)
            <==> forall i :: 0 <= i < 64 ==> Lower(oldText[i]) == Lower(newText[i])
  {
    RotatesAgainExactly(codecs, oldText, newText, slot, stored, first, second);
    hide Convert, Selected, SealsNothing, RotatesAgain, DeriveKey32, Lower;
    SameHexKeyExactly(codecs, oldText, newText);
  }

  /** Two such texts: the tool takes them for a new key, and the second run rotates the row once more. */
  lemma AcceptedTextsRotateAgain(codecs: Codecs, id: string, plain: Text)
    ensures var oldText, newText := "Vq3mX8tLz0RkW5yNc7JdB2hGs9PfUa4E-1", "Vq3mX8tLz0RkW5yNc7JdB2hGs9PfUa4E-2";
            var (o, n) := (DeriveKey32(codecs, oldText), DeriveKey32(codecs, newText));
            var slot := Slot(Webhook, id);
            var stored := Sealed(o, "", 0, plain);
            && oldText != newText && o == n
            && Convert(o, n, slot, stored, Some(1)) == New(Sealed(n, "", 1, plain))
            && Convert(o, n, slot, Sealed(n, "", 1, plain), Some(2)) == New(Sealed(n, "", 2, plain))
  {
    var prefix := "Vq3mX8tLz0RkW5yNc7JdB2hGs9PfUa4E";
    var oldText, newText := "Vq3mX8tLz0RkW5yNc7JdB2hGs9PfUa4E-1", "Vq3mX8tLz0RkW5yNc7JdB2hGs9PfUa4E-2";
    assert oldText[33] != newText[33];
    assert oldText[..32] == prefix && newText[..32] == prefix;
    SameRawKeyExactly(codecs, oldText, newText);
  }
}
