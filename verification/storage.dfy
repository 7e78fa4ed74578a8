/**
 * The registration ledger: an append-only list of registration records
 * kept in one flat file. Lookups are first-match linear scans over the
 * stripped text of a column; a registration is appended only when neither
 * its telegram id nor its phone is already taken.
 */
module Storage {
  import opened Wrappers
  import opened Text

  /** One row of the ledger file, every field as the text read from it. */
  datatype Record = Record(
    telegramId: string,
    fullName: string,
    phone: string,
    region: string,
    registeredAt: string)

  /** The two columns the ledger is searched by. */
  datatype Column = TelegramIdColumn | PhoneColumn

  /** Why `add_registration` refused a registration. */
  datatype AddError = AlreadyRegisteredByTg | PhoneAlreadyUsed

  /** The stripped text of a record's column, which is what lookups compare. */
  function Key(r: Record, col: Column): string
  {
    match col
    case TelegramIdColumn => Strip(r.telegramId)
    case PhoneColumn => Strip(r.phone)
  }

  /** Some record of `rows` has `key` in column `col`. */
  ghost predicate Taken(rows: seq<Record>, col: Column, key: string)
  {
    exists i :: 0 <= i < |rows| && Key(rows[i], col) == key
  }

  /** The position of the first record at or after `from` whose column `col` reads `key`. */
  function FirstIndexFrom(rows: seq<Record>, col: Column, key: string, from: nat): (r: Option<nat>)
    requires from <= |rows|
    ensures r.Some? ==> from <= r.value < |rows| && Key(rows[r.value], col) == key
    ensures r.Some? ==> forall j :: from <= j < r.value ==> Key(rows[j], col) != key
    ensures r.None? ==> forall j :: from <= j < |rows| ==> Key(rows[j], col) != key
    decreases |rows| - from
  {
    if from == |rows| then None
    else if Key(rows[from], col) == key then Some(from)
    else FirstIndexFrom(rows, col, key, from + 1)
  }

  /** The first record whose column `col` reads `key`, if any: no earlier record has that key. */
  function Lookup(rows: seq<Record>, col: Column, key: string): (r: Option<Record>)
    ensures r.Some? <==> Taken(rows, col, key)
    ensures r.Some? ==> r.value in rows && Key(r.value, col) == key
    ensures r.Some? ==> exists i :: 0 <= i < |rows| && r == Some(rows[i]) && forall j :: 0 <= j < i ==> Key(rows[j], col) != key
  {
    match FirstIndexFrom(rows, col, key, 0)
    case None => None
    case Some(i) => Some(rows[i])
  }

  /**
   * The first-match scan of `find_by_telegram_id` and `find_by_phone`:
   * walks the rows in order and stops at the first whose column reads `key`.
   */
  method Scan(rows: seq<Record>, col: Column, key: string) returns (found: Option<Record>)
    ensures found == Lookup(rows, col, key)
  {
    var i := 0;
    while i < |rows|
      invariant 0 <= i <= |rows|
      invariant forall j :: 0 <= j < i ==> Key(rows[j], col) != key
    {
      if Key(rows[i], col) == key {
        return Some(rows[i]);
      }
      i := i + 1;
    }
    return None;
  }

  /** The record `add_registration` writes for its arguments. */
  function NewRecord(telegramId: int, fullName: string, phone: string, region: string, now: string): Record
  {
    Record(IntToString(telegramId), Strip(fullName), Strip(phone), Strip(region), now)
  }

  /**
   * What `add_registration` decides for the rows it finds: the id check
   * comes first, then the phone check, and only when both keys are free is
   * the new record admitted.
   */
  function Admit(rows: seq<Record>, telegramId: int, fullName: string, phone: string, region: string, now: string)
    : (res: Result<Record, AddError>)
    ensures res == Err(AlreadyRegisteredByTg) <==> Taken(rows, TelegramIdColumn, IntToString(telegramId))
    ensures res == Err(PhoneAlreadyUsed) <==>
      !Taken(rows, TelegramIdColumn, IntToString(telegramId)) && Taken(rows, PhoneColumn, Strip(phone))
    ensures res.Ok? ==>
      res.value.telegramId == IntToString(telegramId) && res.value.fullName == Strip(fullName)
      && res.value.phone == Strip(phone) && res.value.region == Strip(region) && res.value.registeredAt == now
  {
    if Lookup(rows, TelegramIdColumn, IntToString(telegramId)).Some? then Err(AlreadyRegisteredByTg)
    else if Lookup(rows, PhoneColumn, Strip(phone)).Some? then Err(PhoneAlreadyUsed)
    else Ok(NewRecord(telegramId, fullName, phone, region, now))
  }

  /** No two records share a stripped telegram id, and no two share a stripped phone. */
  ghost predicate KeysDistinct(rows: seq<Record>)
  {
    forall i, j :: 0 <= i < j < |rows| ==>
      Key(rows[i], TelegramIdColumn) != Key(rows[j], TelegramIdColumn) && Key(rows[i], PhoneColumn) != Key(rows[j], PhoneColumn)
  }

  /** The keys of an admitted record are its own stripped telegram id and phone. */
  lemma NewRecordKeys(telegramId: int, fullName: string, phone: string, region: string, now: string)
    ensures Key(NewRecord(telegramId, fullName, phone, region, now), TelegramIdColumn) == IntToString(telegramId)
    ensures Key(NewRecord(telegramId, fullName, phone, region, now), PhoneColumn) == Strip(phone)
  {
    StripNoSpace(IntToString(telegramId));
    StripIdempotent(phone);
  }

  /**
   * An admitted registration keeps ids and phones pairwise distinct, and
   * a lookup of its telegram id afterwards finds exactly the new record.
   */
  lemma AdmitKeepsKeysDistinct(rows: seq<Record>, telegramId: int, fullName: string, phone: string, region: string, now: string)
    requires KeysDistinct(rows)
    requires Admit(rows, telegramId, fullName, phone, region, now).Ok?
    ensures KeysDistinct(rows + [Admit(rows, telegramId, fullName, phone, region, now).value])
    ensures Lookup(rows + [Admit(rows, telegramId, fullName, phone, region, now).value], TelegramIdColumn, IntToString(telegramId))
         == Some(Admit(rows, telegramId, fullName, phone, region, now).value)
  {
    var rec := Admit(rows, telegramId, fullName, phone, region, now).value;
    var after := rows + [rec];
    NewRecordKeys(telegramId, fullName, phone, region, now);
    forall i, j | 0 <= i < j < |after|
      ensures Key(after[i], TelegramIdColumn) != Key(after[j], TelegramIdColumn)
      ensures Key(after[i], PhoneColumn) != Key(after[j], PhoneColumn)
    {
      if j == |rows| {
        assert after[i] == rows[i] && after[j] == rec;
      }
    }
    var first := FirstIndexFrom(after, TelegramIdColumn, IntToString(telegramId), 0);
    assert Key(after[|rows|], TelegramIdColumn) == IntToString(telegramId);
    forall j | 0 <= j < |rows| ensures Key(after[j], TelegramIdColumn) != IntToString(telegramId) {
      assert after[j] == rows[j];
    }
  }

  /**
   * Once a registration is admitted, registering the same telegram id
   * again fails with the id error, and registering the same phone under a
   * fresh telegram id fails with the phone error.
   */
  lemma SecondRegistrationRefused(rows: seq<Record>, telegramId: int, fullName: string, phone: string, region: string, now: string,
                                  otherId: int, otherName: string, otherPhone: string, otherRegion: string, later: string)
    requires Admit(rows, telegramId, fullName, phone, region, now).Ok?
    ensures otherId == telegramId ==>
      Admit(rows + [Admit(rows, telegramId, fullName, phone, region, now).value], otherId, otherName, otherPhone, otherRegion, later)
        == Err(AlreadyRegisteredByTg)
    ensures otherId != telegramId && Strip(otherPhone) == Strip(phone) && !Taken(rows, TelegramIdColumn, IntToString(otherId)) ==>
      Admit(rows + [Admit(rows, telegramId, fullName, phone, region, now).value], otherId, otherName, otherPhone, otherRegion, later)
        == Err(PhoneAlreadyUsed)
  {
    var rec := Admit(rows, telegramId, fullName, phone, region, now).value;
    var after := rows + [rec];
    NewRecordKeys(telegramId, fullName, phone, region, now);
    assert after[|rows|] == rec;
    assert Taken(after, TelegramIdColumn, IntToString(telegramId));
    assert Taken(after, PhoneColumn, Strip(phone));
    if otherId != telegramId && !Taken(rows, TelegramIdColumn, IntToString(otherId)) {
      IntToStringInjective(otherId, telegramId);
      forall i | 0 <= i < |after| ensures Key(after[i], TelegramIdColumn) != IntToString(otherId) {
        if i < |rows| {
          assert after[i] == rows[i];
        }
      }
    }
  }

  /**
   * The ledger file. `present` says whether the file exists; `rows` are
   * its data rows in file order (the header row is implicit). A missing
   * file has no rows.
   */
  class Ledger {
    var present: bool
    var rows: seq<Record>

    ghost predicate Valid()
      reads this
    {
      present || rows == []
    }

    constructor (present: bool, rows: seq<Record>)
      requires present || rows == []
      ensures Valid() && this.present == present && this.rows == rows
    {
      this.present := present;
      this.rows := rows;
    }

    /**
     * `ensure_storage`: creates a header-only file when none exists and
     * otherwise leaves the file alone, so a second call changes nothing.
     */
    method EnsureStorage()
      requires Valid()
      modifies this
      ensures Valid() && present
      ensures rows == old(rows)
      ensures old(present) ==> unchanged(this)
      ensures !old(present) ==> rows == []
    {
      if !present {
        present := true;
        rows := [];
      }
    }

    /** `_read_all`: every data row, in file order, after making sure the file exists. */
    method ReadAll() returns (all: seq<Record>)
      requires Valid()
      modifies this
      ensures Valid() && present && rows == old(rows)
      ensures all == rows
    {
      EnsureStorage();
      all := rows;
    }

    /** `find_by_telegram_id`: the first record whose stripped id is `str(telegram_id)`. */
    method FindByTelegramId(telegramId: int) returns (found: Option<Record>)
      requires Valid()
      modifies this
      ensures Valid() && present && rows == old(rows)
      ensures found == Lookup(rows, TelegramIdColumn, IntToString(telegramId))
    {
      var all := ReadAll();
      found := Scan(all, TelegramIdColumn, IntToString(telegramId));
    }

    /**
     * `find_by_phone`: the first record whose stripped phone equals the
     * stripped query. No digit normalisation happens here, and an empty
     * query finds a record with an empty phone.
     */
    method FindByPhone(phone: string) returns (found: Option<Record>)
      requires Valid()
      modifies this
      ensures Valid() && present && rows == old(rows)
      ensures found == Lookup(rows, PhoneColumn, Strip(phone))
    {
      var phoneNorm := Strip(phone);
      var all := ReadAll();
      found := Scan(all, PhoneColumn, phoneNorm);
    }

    /**
     * `add_registration`: refuses with `AlreadyRegisteredByTg` or
     * `PhoneAlreadyUsed` and writes nothing, or appends exactly one record
     * stamped with `now` and returns it.
     */
    method AddRegistration(telegramId: int, fullName: string, phone: string, region: string, now: string)
      returns (res: Result<Record, AddError>)
      requires Valid()
      modifies this
      ensures Valid() && present
      ensures res == Admit(old(rows), telegramId, fullName, phone, region, now)
      ensures rows == if res.Ok? then old(rows) + [res.value] else old(rows)
    {
      EnsureStorage();
      var row := NewRecord(telegramId, fullName, phone, region, now);
      var byId := FindByTelegramId(telegramId);
      if byId.Some? {
        return Err(AlreadyRegisteredByTg);
      }
      var byPhone := FindByPhone(phone);
      if byPhone.Some? {
        return Err(PhoneAlreadyUsed);
      }
      rows := rows + [row];
      return Ok(row);
    }
  }
}
