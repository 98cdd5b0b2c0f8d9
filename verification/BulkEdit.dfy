/**
 * Planning and applying a bulk metadata edit (internal/bulkedit/bulkedit.go)
 * against the query it feeds (EditMediaItemMetadata in internal/db/queries/media.sql).
 */
module BulkEdit {
  import opened Wrappers
  import opened GenreMerge
  import SortedInts

  datatype Field = ContentRating | GenreList | OtherField(name: string)

  datatype Reason = Locked | NotApplicable | NotFound

  datatype Skip = Skip(item: int, title: string, field: Option<Field>, reason: Reason)

  const RATED_TYPES: set<string> := {"movie", "show", "episode", "music_video", "home_video", "audiobook", "book", "podcast"}
  const GENRE_TYPES: set<string> := {"movie", "show", "album", "artist", "music_video", "audiobook", "book", "podcast"}

  /** Applies. */
  predicate Applies(field: Field, itemType: string) {
    match field
    case ContentRating => itemType in RATED_TYPES
    case GenreList => itemType in GENRE_TYPES
    case OtherField(_) => false
  }

  /** A row of LockMediaItemsForBulkEdit. */
  datatype Item = Item(
    id: int, itemType: string, title: string,
    contentRating: Option<string>, genres: Genres, locked: set<Field>)

  datatype Request = Request(
    ids: seq<int>,
    setContentRating: bool, contentRating: Option<string>,
    setGenres: bool, genres: Genres,
    addGenres: Genres, removeGenres: Genres,
    addLabels: seq<string>, removeLabels: seq<string>, maxLabels: int,
    toLock: seq<Field>, unlock: seq<Field>)

  datatype Params = Params(
    setFields: seq<Field>, lockFields: seq<Field>, unlockFields: seq<Field>,
    contentRating: Option<string>, genres: Genres)

  function Names(fields: seq<Field>): set<Field> { set f | f in fields }

  /** EditMediaItemMetadata: set_fields are written, lock_fields join the locks, unlock_fields leave them last. */
  function Edit(item: Item, p: Params): Item {
    item.(contentRating := if ContentRating in p.setFields then p.contentRating else item.contentRating,
          genres := if GenreList in p.setFields then p.genres else item.genres,
          locked := item.locked + Names(p.lockFields) - Names(p.unlockFields))
  }

  // --------------------------------------------- what the request means

  predicate Merges(req: Request) { !req.setGenres && (req.addGenres != [] || req.removeGenres != []) }

  predicate Asks(req: Request, field: Field) {
    match field
    case ContentRating => req.setContentRating
    case GenreList => req.setGenres || Merges(req)
    case OtherField(_) => false
  }

  /** Why a field may not be written on an item, if so. */
  function WhyNot(item: Item, req: Request, field: Field): Option<Reason> {
    if !Applies(field, item.itemType) then Some(NotApplicable)
    else if field in item.locked && field !in req.unlock then Some(Locked)
    else None
  }

  function NewGenres(lower: Key, item: Item, req: Request): Genres {
    if req.setGenres then req.genres else Merge(lower, item.genres, req.addGenres, req.removeGenres)
  }

  predicate Writes(lower: Key, item: Item, req: Request, field: Field) {
    && Asks(req, field) && WhyNot(item, req, field).None?
    && (field.GenreList? && Merges(req) ==> NewGenres(lower, item, req) != item.genres)
  }

  function Written(lower: Key, item: Item, req: Request): set<Field> {
    set f | f in {ContentRating, GenreList} && Writes(lower, item, req, f)
  }

  function Skips(item: Item, req: Request, field: Field): seq<Skip> {
    if Asks(req, field) && WhyNot(item, req, field).Some?
    then [Skip(item.id, item.title, Some(field), WhyNot(item, req, field).value)] else []
  }

  /** The item the request makes of `item`. */
  function Edited(lower: Key, item: Item, req: Request): Item {
    var written := Written(lower, item, req);
    item.(contentRating := if ContentRating in written then req.contentRating else item.contentRating,
          genres := if GenreList in written then NewGenres(lower, item, req) else item.genres,
          locked := item.locked - (Names(req.unlock) - written) + written + (Names(req.toLock) - item.locked))
  }

  // ----------------------------------------------------------- the plan

  lemma NamesAppend(fields: seq<Field>, f: Field)
    ensures Names(fields + [f]) == Names(fields) + {f}
  {
  }

  /** The fields Plan sets, their values and the skips. */
  method SetFields(lower: Key, row: Item, req: Request)
    returns (setFields: seq<Field>, contentRating: Option<string>, genres: Genres, skips: seq<Skip>)
    ensures Names(setFields) == Written(lower, row, req)
    ensures ContentRating in setFields ==> contentRating == req.contentRating
    ensures GenreList in setFields ==> genres == NewGenres(lower, row, req)
    ensures skips == Skips(row, req, ContentRating) + Skips(row, req, GenreList)
  {
    setFields, contentRating, genres, skips := [], None, [], [];
    if req.setContentRating {
      var writable, skip := Writable(row, req, ContentRating);
      skips := skips + skip;
      if writable {
        contentRating := req.contentRating;
        setFields := setFields + [ContentRating];
      }
    }
    if req.setGenres {
      var writable, skip := Writable(row, req, GenreList);
      skips := skips + skip;
      if writable {
        genres := req.genres;
        setFields := setFields + [GenreList];
      }
    } else if req.addGenres != [] || req.removeGenres != [] {
      var writable, skip := Writable(row, req, GenreList);
      skips := skips + skip;
      if writable {
        var merged, changed := MergeGenres(lower, row.genres, req.addGenres, req.removeGenres);
        if changed {
          genres := merged;
          setFields := setFields + [GenreList];
        }
      }
    }
  }

  method LockFields(row: Item, req: Request, setFields: seq<Field>) returns (fields: seq<Field>)
    ensures Names(fields) == Names(setFields) + (Names(req.toLock) - row.locked)
    ensures fields == [] ==> setFields == []
  {
    fields := setFields;
    var i := 0;
    while i < |req.toLock|
      invariant 0 <= i <= |req.toLock| && |fields| >= |setFields|
      invariant Names(fields) == Names(setFields) + (Names(req.toLock[..i]) - row.locked)
    {
      var f := req.toLock[i];
      assert req.toLock[..i + 1] == req.toLock[..i] + [f];
      NamesAppend(req.toLock[..i], f);
      if f !in fields && f !in row.locked {
        NamesAppend(fields, f);
        fields := fields + [f];
      } else {
        assert f in Names(fields) || f in row.locked;
      }
      i := i + 1;
    }
    assert req.toLock[..i] == req.toLock;
  }

  method UnlockFields(row: Item, req: Request, setFields: seq<Field>) returns (fields: seq<Field>)
    ensures Names(fields) == Names(req.unlock) * row.locked - Names(setFields)
  {
    fields := [];
    var i := 0;
    while i < |req.unlock|
      invariant 0 <= i <= |req.unlock|
      invariant Names(fields) == Names(req.unlock[..i]) * row.locked - Names(setFields)
    {
      var f := req.unlock[i];
      assert req.unlock[..i + 1] == req.unlock[..i] + [f];
      NamesAppend(req.unlock[..i], f);
      if f in row.locked && f !in setFields {
        NamesAppend(fields, f);
        fields := fields + [f];
      } else {
        assert f in Names(setFields) || f !in row.locked;
      }
      i := i + 1;
    }
    assert req.unlock[..i] == req.unlock;
  }

  /** Plan: its params make the requested item, and it skips exactly what was asked for and not writable. */
  method Plan(lower: Key, row: Item, req: Request) returns (p: Params, skips: seq<Skip>, write: bool)
    ensures Edit(row, p) == Edited(lower, row, req)
    ensures Names(p.setFields) == Written(lower, row, req)
    ensures skips == Skips(row, req, ContentRating) + Skips(row, req, GenreList)
    ensures write <==> p.setFields != [] || p.lockFields != [] || p.unlockFields != []
    ensures !write ==> Edited(lower, row, req) == row
  {
    var setFields, contentRating, genres, skipped := SetFields(lower, row, req);
    var lockFields := LockFields(row, req, setFields);
    var unlockFields := UnlockFields(row, req, setFields);
    p := Params(setFields, lockFields, unlockFields, contentRating, genres);
    skips := skipped;
    write := setFields != [] || lockFields != [] || unlockFields != [];
    ParamsMakeIt(lower, row, req, p);
  }

  /** Joining the locks and dropping the unlocks comes to the promised lock set. */
  lemma ParamsMakeIt(lower: Key, row: Item, req: Request, p: Params)
    requires Names(p.setFields) == Written(lower, row, req)
    requires Names(p.lockFields) == Names(p.setFields) + (Names(req.toLock) - row.locked)
    requires Names(p.unlockFields) == Names(req.unlock) * row.locked - Names(p.setFields)
    requires ContentRating in p.setFields ==> p.contentRating == req.contentRating
    requires GenreList in p.setFields ==> p.genres == NewGenres(lower, row, req)
    ensures Edit(row, p) == Edited(lower, row, req)
  {
    forall f ensures f in p.setFields <==> f in Written(lower, row, req) {
      assert f in p.setFields <==> f in Names(p.setFields);
    }
    assert Edit(row, p).locked == Edited(lower, row, req).locked;
  }

  /** Whether a field may be written, and the skip recorded when not. */
  method Writable(row: Item, req: Request, field: Field) returns (ok: bool, skips: seq<Skip>)
    requires Asks(req, field)
    ensures ok <==> WhyNot(row, req, field).None?
    ensures skips == Skips(row, req, field)
  {
    if !Applies(field, row.itemType) {
      return false, [Skip(row.id, row.title, Some(field), NotApplicable)];
    }
    if field in row.locked && field !in req.unlock {
      return false, [Skip(row.id, row.title, Some(field), Locked)];
    }
    return true, [];
  }

  // ------------------------------------------------------ what it keeps

  /** A locked field the request does not unlock keeps its value and its lock. */
  lemma LocksRespected(lower: Key, item: Item, req: Request, field: Field)
    requires field in item.locked && field !in req.unlock
    ensures var after := Edited(lower, item, req);
            && field in after.locked
            && (field.ContentRating? ==> after.contentRating == item.contentRating)
            && (field.GenreList? ==> after.genres == item.genres)
  {
  }

  /** A field's value changes only by being written, and what is written is locked, named in unlock or not. */
  lemma WrittenIsLocked(lower: Key, item: Item, req: Request)
    ensures var after := Edited(lower, item, req);
            && Written(lower, item, req) <= after.locked
            && (after.contentRating != item.contentRating ==> ContentRating in Written(lower, item, req))
            && (after.genres != item.genres ==> GenreList in Written(lower, item, req))
            && after.id == item.id && after.itemType == item.itemType && after.title == item.title
  {
  }

  /** Everything asked for is either written, or skipped with a reason, or a merge that changes nothing. */
  lemma WrittenOrSkipped(lower: Key, item: Item, req: Request, field: Field)
    requires Asks(req, field)
    ensures field in Written(lower, item, req) ==> Skips(item, req, field) == []
    ensures field !in Written(lower, item, req) ==>
              |Skips(item, req, field)| == 1 || (field.GenreList? && NewGenres(lower, item, req) == item.genres)
  {
  }

  /** Whether the request asks for a field that can be written on such an item once it is unlocked. */
  predicate Welcome(item: Item, req: Request, field: Field) {
    Asks(req, field) && Applies(field, item.itemType)
  }

  /**
   * What a second, equal request leaves alone: every field in both lock and
   * unlock is set outright and fits the item; and where genres to merge are
   * unlocked and fit the item, the merge leaves its genres as they are.
   */
  ghost predicate Settles(lower: Key, item: Item, req: Request) {
    && (forall f <- Names(req.toLock) * Names(req.unlock) :: Welcome(item, req, f) && !(f.GenreList? && Merges(req)))
    && (Merges(req) && GenreList in req.unlock && Welcome(item, req, GenreList) ==>
          Unmoved(lower, item.genres, req.addGenres, req.removeGenres))
  }

  /** The same in terms of what the first edit writes. */
  predicate SettlesWritten(lower: Key, item: Item, req: Request) {
    && Names(req.toLock) * Names(req.unlock) <= Written(lower, item, req)
    && !(Merges(req) && GenreList in req.unlock && GenreList in Written(lower, item, req))
  }

  lemma SettlesMeansWritten(lower: Key, item: Item, req: Request)
    ensures Settles(lower, item, req) <==> SettlesWritten(lower, item, req)
  {
    UnchangedExactly(lower, item.genres, req.addGenres, req.removeGenres);
    hide Unmoved, Merge;
    assert forall f <- Names(req.toLock) * Names(req.unlock) :: f in Written(lower, item, req) <==> Writes(lower, item, req, f);
  }

  /** A second edit writes no more than the first, and again whatever it may overwrite outside a merge. */
  lemma SecondWrites(lower: Key, item: Item, req: Request, f: Field)
    ensures var once := Edited(lower, item, req);
            && (f in Written(lower, once, req) ==> f in Written(lower, item, req))
            && (f in Written(lower, item, req) && f in req.unlock && !(f.GenreList? && Merges(req)) ==> f in Written(lower, once, req))
  {
  }

  lemma SettledIsFixed(lower: Key, item: Item, req: Request)
    requires SettlesWritten(lower, item, req)
    ensures Edited(lower, Edited(lower, item, req), req) == Edited(lower, item, req)
  {
    var once := Edited(lower, item, req);
    var twice := Edited(lower, once, req);
    forall f ensures f in twice.locked <==> f in once.locked {
      SecondWrites(lower, item, req, f);
    }
    assert twice.locked == once.locked;
    SecondWrites(lower, item, req, ContentRating);
    SecondWrites(lower, item, req, GenreList);
    if Merges(req) {
      MergeIsBlocked(lower, item, req);
    }
  }

  /** After a merge that wrote, the genres are locked against a second one unless it unlocks them. */
  lemma MergeIsBlocked(lower: Key, item: Item, req: Request)
    requires SettlesWritten(lower, item, req) && Merges(req)
    ensures GenreList !in Written(lower, Edited(lower, item, req), req)
  {
  }

  lemma FixedIsSettled(lower: Key, item: Item, req: Request)
    requires Edited(lower, Edited(lower, item, req), req) == Edited(lower, item, req)
    ensures SettlesWritten(lower, item, req)
  {
    var once := Edited(lower, item, req);
    var twice := Edited(lower, once, req);
    forall f | f in Names(req.toLock) * Names(req.unlock) ensures f in Written(lower, item, req) {
      SecondWrites(lower, item, req, f);
      assert f in twice.locked <==> f in once.locked;
    }
    SecondWrites(lower, item, req, GenreList);
    assert GenreList in twice.locked <==> GenreList in once.locked;
  }

  /** Applying the same request again changes nothing exactly when the request settles. */
  lemma RepeatExactly(lower: Key, item: Item, req: Request)
    ensures Edited(lower, Edited(lower, item, req), req) == Edited(lower, item, req) <==> Settles(lower, item, req)
  {
    SettlesMeansWritten(lower, item, req);
    hide Settles, Edited;
    if SettlesWritten(lower, item, req) {
      SettledIsFixed(lower, item, req);
    }
    if Edited(lower, Edited(lower, item, req), req) == Edited(lower, item, req) {
      FixedIsSettled(lower, item, req);
    }
  }

  // ------------------------------------------------- what an edit comes to

  /** The item's type has the field, and no lock of the item keeps the request from it. */
  predicate Open(item: Item, req: Request, field: Field) {
    && (field.ContentRating? ==> item.itemType in RATED_TYPES) && (field.GenreList? ==> item.itemType in GENRE_TYPES)
    && !field.OtherField? && (field in item.locked ==> field in req.unlock)
  }

  /** Setting writes what was given, an absent rating too; merging writes the merge; the rest stays. */
  lemma EditedMeans(lower: Key, item: Item, req: Request)
    ensures var after := Edited(lower, item, req);
            && after.id == item.id && after.itemType == item.itemType && after.title == item.title
            && after.contentRating == (if req.setContentRating && Open(item, req, ContentRating) then req.contentRating else item.contentRating)
            && after.genres == (if !Open(item, req, GenreList) then item.genres
                                else if req.setGenres then req.genres
                                else if req.addGenres == [] && req.removeGenres == [] then item.genres
                                else Merge(lower, item.genres, req.addGenres, req.removeGenres))
  {
    assert GenreList in Written(lower, item, req) <==> Writes(lower, item, req, GenreList);
    assert ContentRating in Written(lower, item, req) <==> Writes(lower, item, req, ContentRating);
  }

  /** A field is locked afterwards if it was written, if it was locked and is not unlocked, or if it is locked now. */
  lemma LocksMean(lower: Key, item: Item, req: Request, f: Field)
    ensures f in Edited(lower, item, req).locked <==>
            || (f.ContentRating? && req.setContentRating && Open(item, req, f))
            || (f.GenreList? && Open(item, req, f)
                && (req.setGenres || Merge(lower, item.genres, req.addGenres, req.removeGenres) != item.genres)
                && (req.setGenres || req.addGenres != [] || req.removeGenres != []))
            || (f in item.locked && f !in req.unlock) || (f in req.toLock && f !in item.locked)
  {
    assert f in Written(lower, item, req) <==> (f.ContentRating? || f.GenreList?) && Writes(lower, item, req, f);
  }

  /** What is asked for and not written is reported, with the reason it was not. */
  lemma SkipsMean(item: Item, req: Request, field: Field)
    ensures var asked := (field.ContentRating? && req.setContentRating)
                         || (field.GenreList? && (req.setGenres || req.addGenres != [] || req.removeGenres != []));
            var fits := (field.ContentRating? ==> item.itemType in RATED_TYPES) && (field.GenreList? ==> item.itemType in GENRE_TYPES);
            Skips(item, req, field) ==
            if asked && !fits then [Skip(item.id, item.title, Some(field), NotApplicable)]
            else if asked && field in item.locked && field !in req.unlock then [Skip(item.id, item.title, Some(field), Locked)]
            else []
  {
  }
}
