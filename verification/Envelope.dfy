/**
 * Secrets at rest (internal/auth/crypto.go, internal/arrcrypt/arrcrypt.go and
 * the settings envelope) over an ideal authenticated cipher: a ciphertext is a
 * value that opens under exactly its own key and context.
 */
module Envelope {
  import opened SecretKey
  import opened Wrappers

  /** The prefixes encv1:, encv2: and arrenc1:. */
  datatype Mark = SettingV1 | SettingV2 | ArrKey

  /**
   * A stored text: one that is no ciphertext and carries no mark, the base64 of
   * a ciphertext, or a mark in front of a text.
   */
  datatype Text =
    | Plain(s: string)
    | Sealed(key: Key, context: string, nonce: int, plain: Text)
    | Marked(mark: Mark, body: Text)

  const EMPTY := Plain("")

  /** EncryptContext; Encrypt is it without context. None is the random source failing. */
  function Encrypt(key: Key, context: string, nonce: Option<int>, plain: Text): Option<Text> {
    if nonce.None? then None else Some(Sealed(key, context, nonce.value, plain))
  }

  /** DecryptContext; Decrypt is it without context. */
  function Decrypt(key: Key, context: string, t: Text): Option<Text> {
    if t.Sealed? && t.key == key && t.context == context then Some(t.plain) else None
  }

  predicate HasMark(t: Text, m: Mark) { t.Marked? && t.mark == m }

  /** arrcrypt.Seal with an encryptor. */
  function SealArr(key: Key, id: string, nonce: Option<int>, plain: Text): Option<Text> {
    if plain == EMPTY then Some(plain)
    else match Encrypt(key, id, nonce, plain)
      case None => None
      case Some(ct) => Some(Marked(ArrKey, ct))
  }

  /** arrcrypt.Open with an encryptor: unmarked values are legacy cleartext. */
  function OpenArr(key: Key, id: string, stored: Text): Option<Text> {
    if HasMark(stored, ArrKey) then Decrypt(key, id, stored.body) else Some(stored)
  }

  datatype Column = Settings | Webhook | Totp | ListenBrainz | LastFm | TraktAccess | TraktRefresh | ArrApiKey | AgentSecret

  /** Where a secret is stored: its column and its row's key. */
  datatype Slot = Slot(column: Column, id: string)

  /** Columns sealed without context. */
  predicate Raw(c: Column) { c.Webhook? || c.Totp? || c.ListenBrainz? }

  /** The associated data of a slot: settings key, row id, CredentialContext or SecretContext. */
  function Context(slot: Slot): string {
    match slot.column
    case Settings => slot.id
    case ArrApiKey => slot.id
    case LastFm => "user_scrobble.lastfm_session_key:" + slot.id
    case TraktAccess => "user_scrobble.trakt_access_token:" + slot.id
    case TraktRefresh => "user_scrobble.trakt_refresh_token:" + slot.id
    case AgentSecret => "notification_agent:" + slot.id
    case _ => ""
  }

  /** What the server reads from a slot under a key; None is a value it cannot open. */
  function Reads(key: Key, slot: Slot, stored: Text): Option<Text> {
    match slot.column
    case Settings =>
      if HasMark(stored, SettingV2) then Decrypt(key, slot.id, stored.body)
      else if HasMark(stored, SettingV1) then Decrypt(key, "", stored.body)
      else Some(stored)
    case ArrApiKey => OpenArr(key, slot.id, stored)
    case _ => Decrypt(key, Context(slot), stored)
  }

  /** A plaintext as a slot holds it under a key. */
  function Resealed(key: Key, slot: Slot, plain: Text, nonce: int): Text {
    match slot.column
    case Settings => Marked(SettingV2, Sealed(key, slot.id, nonce, plain))
    case ArrApiKey => if plain == EMPTY then plain else Marked(ArrKey, Sealed(key, slot.id, nonce, plain))
    case _ => Sealed(key, Context(slot), nonce, plain)
  }

  /** Writing and reading agree, and another key reads nothing (an empty arr key is no ciphertext). */
  lemma ResealedReads(key: Key, other: Key, slot: Slot, plain: Text, nonce: int)
    ensures Reads(key, slot, Resealed(key, slot, plain, nonce)) == Some(plain)
    ensures other != key && Resealed(key, slot, plain, nonce) != EMPTY ==> Reads(other, slot, Resealed(key, slot, plain, nonce)) == None
  {
  }

  /** What was stored before there were envelopes is read as it is, whatever the key. */
  lemma CleartextReads(key: Key, slot: Slot, stored: Text)
    requires (slot.column.Settings? && !(stored.Marked? && (stored.mark.SettingV1? || stored.mark.SettingV2?)))
             || (slot.column.ArrApiKey? && !(stored.Marked? && stored.mark.ArrKey?))
    ensures Reads(key, slot, stored) == Some(stored)
  {
  }

  /** Rows other than settings are keyed by UUIDs; a settings key is not empty. */
  predicate RowKey(slot: Slot) { if slot.column.Settings? then slot.id != "" else |slot.id| == 36 }

  lemma ContextsDiffer(a: Slot, b: Slot)
    requires a != b && RowKey(a) && RowKey(b) && !(Raw(a.column) && Raw(b.column))
    requires (a.column.Settings? <==> b.column.Settings?) && (a.column.ArrApiKey? <==> b.column.ArrApiKey?)
    ensures Context(a) != Context(b)
  {
    if a.column == b.column {
      SuffixesDiffer("user_scrobble.lastfm_session_key:", a.id, b.id);
      SuffixesDiffer("user_scrobble.trakt_access_token:", a.id, b.id);
      SuffixesDiffer("user_scrobble.trakt_refresh_token:", a.id, b.id);
      SuffixesDiffer("notification_agent:", a.id, b.id);
    } else {
      TellingLetters(a);
      TellingLetters(b);
    }
  }

  lemma SuffixesDiffer(p: string, x: string, y: string)
    requires x != y
    ensures p + x != p + y
  {
    assert (p + x)[|p|..] == x && (p + y)[|p|..] == y;
  }

  lemma TellingLetters(slot: Slot)
    ensures slot.column.AgentSecret? ==> Context(slot)[0] == 'n'
    ensures slot.column.LastFm? ==> Context(slot)[0] == 'u' && Context(slot)[14] == 'l'
    ensures slot.column.TraktAccess? ==> Context(slot)[0] == 'u' && Context(slot)[14] == 't' && Context(slot)[20] == 'a'
    ensures slot.column.TraktRefresh? ==> Context(slot)[0] == 'u' && Context(slot)[14] == 't' && Context(slot)[20] == 'r'
  {
  }

  /**
   * A secret copied into another slot does not work there, under any key, unless
   * both slots are in the columns sealed without context.
   */
  lemma MovedSecretIsLost(key: Key, reader: Key, a: Slot, b: Slot, plain: Text, nonce: int)
    requires a != b && RowKey(a) && RowKey(b) && !(Raw(a.column) && Raw(b.column)) && plain != EMPTY
    ensures Reads(reader, b, Resealed(key, a, plain, nonce)) != Some(plain)
  {
    var moved := Resealed(key, a, plain, nonce);
    assert plain != moved;
    if (a.column.Settings? <==> b.column.Settings?) && (a.column.ArrApiKey? <==> b.column.ArrApiKey?) {
      ContextsDiffer(a, b);
    }
  }

  /** Between those columns it does: the ciphertext carries nothing of its slot. */
  lemma RawSecretMoves(key: Key, a: Slot, b: Slot, plain: Text, nonce: int)
    requires Raw(a.column) && Raw(b.column)
    ensures Reads(key, b, Resealed(key, a, plain, nonce)) == Some(plain)
  {
  }
}
