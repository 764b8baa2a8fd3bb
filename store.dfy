/** The record store: one in-memory document, written back in full under a
    single storage key after every change. The browser's key-value storage is
    the field `storage`, a map from key to document (serialisation is taken
    as the identity). The clock is passed in: `now` is the millisecond clock
    that becomes a new record's id and `nowIso` the ISO-8601 timestamp that
    becomes its `createdAt`; the source reads the clock once for each. */
module Store {
  import opened Records
  import opened RecordLists

  /** The key the whole document is stored under. */
  const StorageKey: string := "life_terminal_station"

  class DataStore {
    /** The device's key-value storage, shared with nothing else in this model. */
    var storage: map<string, Document>
    /** The in-memory document every getter reads and every mutator changes. */
    var data: Document

    /** Storage never disagrees with memory: either nothing has been stored
        yet, or what is stored is the in-memory document. */
    ghost predicate Valid()
      reads this
    {
      StorageKey in storage ==> storage[StorageKey] == data
    }

    /** Storage holds exactly the in-memory document. */
    ghost predicate Persisted()
      reads this
    {
      StorageKey in storage && storage[StorageKey] == data
    }

    /** Opens the store on the given storage and loads the document from it. */
    constructor (storage: map<string, Document>)
      ensures this.storage == storage
      ensures StorageKey in storage ==> data == storage[StorageKey]
      ensures StorageKey !in storage ==> data == DefaultDocument()
      ensures Valid()
    {
      this.storage := storage;
      new;
      data := Load();
    }

    /** The stored document, or the empty default when nothing is stored. */
    method Load() returns (d: Document)
      ensures StorageKey in storage ==> d == storage[StorageKey]
      ensures StorageKey !in storage ==> d.lifeExpectancy == None && d.birthDate == None
      ensures StorageKey !in storage ==> d.wills == [] && d.belongings == [] && d.letters == []
      ensures StorageKey !in storage ==> d.funeralPlan == None && d.medicalDirective == None
    {
      if StorageKey in storage {
        d := storage[StorageKey];
      } else {
        d := DefaultDocument();
      }
    }

    /** Writes the whole in-memory document under the storage key. */
    method Save()
      modifies this`storage
      ensures Persisted()
      ensures storage == old(storage)[StorageKey := data]
    {
      storage := storage[StorageKey := data];
    }

    /** The will list, which is also what storage holds for it. */
    method GetWills() returns (r: seq<Will>)
      requires Valid()
      ensures r == data.wills
      ensures StorageKey in storage ==> r == storage[StorageKey].wills
    {
      r := data.wills;
    }

    /** Stamps the will with the clock and appends it to the will list. */
    method AddWill(will: WillFields, now: int, nowIso: string) returns (r: Will)
      modifies this
      ensures r.id == now && r.createdAt == nowIso && r.fields == will
      ensures data == old(data).(wills := old(data).wills + [r])
      ensures storage == old(storage)[StorageKey := data]
      ensures Persisted()
    {
      r := Stamped(now, nowIso, will);
      data := data.(wills := data.wills + [r]);
      Save();
    }

    /** Drops every will whose id is `id`; an absent id changes nothing. */
    method DeleteWill(id: int)
      modifies this
      ensures data == old(data).(wills := Without(old(data).wills, id))
      ensures |data.wills| == |old(data).wills| - CountId(old(data).wills, id)
      ensures storage == old(storage)[StorageKey := data]
      ensures Persisted()
    {
      WithoutLength(data.wills, id);
      data := data.(wills := Without(data.wills, id));
      Save();
    }

    /** The belongings list, which is also what storage holds for it. */
    method GetBelongings() returns (r: seq<Belonging>)
      requires Valid()
      ensures r == data.belongings
      ensures StorageKey in storage ==> r == storage[StorageKey].belongings
    {
      r := data.belongings;
    }

    /** Stamps the item with the clock and appends it to the belongings list. */
    method AddBelonging(item: BelongingFields, now: int, nowIso: string) returns (r: Belonging)
      modifies this
      ensures r.id == now && r.createdAt == nowIso && r.fields == item
      ensures data == old(data).(belongings := old(data).belongings + [r])
      ensures storage == old(storage)[StorageKey := data]
      ensures Persisted()
    {
      r := Stamped(now, nowIso, item);
      data := data.(belongings := data.belongings + [r]);
      Save();
    }

    /** Drops every belonging whose id is `id`; an absent id changes nothing. */
    method DeleteBelonging(id: int)
      modifies this
      ensures data == old(data).(belongings := Without(old(data).belongings, id))
      ensures |data.belongings| == |old(data).belongings| - CountId(old(data).belongings, id)
      ensures storage == old(storage)[StorageKey := data]
      ensures Persisted()
    {
      WithoutLength(data.belongings, id);
      data := data.(belongings := Without(data.belongings, id));
      Save();
    }

    /** The letter list, which is also what storage holds for it. */
    method GetLetters() returns (r: seq<Letter>)
      requires Valid()
      ensures r == data.letters
      ensures StorageKey in storage ==> r == storage[StorageKey].letters
    {
      r := data.letters;
    }

    /** Stamps the letter with the clock and appends it to the letter list. */
    method AddLetter(letter: LetterFields, now: int, nowIso: string) returns (r: Letter)
      modifies this
      ensures r.id == now && r.createdAt == nowIso && r.fields == letter
      ensures data == old(data).(letters := old(data).letters + [r])
      ensures storage == old(storage)[StorageKey := data]
      ensures Persisted()
    {
      r := Stamped(now, nowIso, letter);
      data := data.(letters := data.letters + [r]);
      Save();
    }

    /** Drops every letter whose id is `id`; an absent id changes nothing. */
    method DeleteLetter(id: int)
      modifies this
      ensures data == old(data).(letters := Without(old(data).letters, id))
      ensures |data.letters| == |old(data).letters| - CountId(old(data).letters, id)
      ensures storage == old(storage)[StorageKey := data]
      ensures Persisted()
    {
      WithoutLength(data.letters, id);
      data := data.(letters := Without(data.letters, id));
      Save();
    }

    /** Sets the birth date and the life expectancy together. */
    method SetLifeExpectancy(birthDate: string, expectancy: string)
      modifies this
      ensures data == old(data).(birthDate := Some(birthDate), lifeExpectancy := Some(expectancy))
      ensures storage == old(storage)[StorageKey := data]
      ensures Persisted()
    {
      data := data.(birthDate := Some(birthDate));
      data := data.(lifeExpectancy := Some(expectancy));
      Save();
    }

    /** The birth date and life expectancy as one pair, as stored. */
    method GetLifeExpectancy() returns (r: LifeExpectancy)
      requires Valid()
      ensures r.birthDate == data.birthDate && r.lifeExpectancy == data.lifeExpectancy
      ensures StorageKey in storage ==>
        r.birthDate == storage[StorageKey].birthDate && r.lifeExpectancy == storage[StorageKey].lifeExpectancy
    {
      r := LifeExpectancy(data.birthDate, data.lifeExpectancy);
    }

    /** Replaces the funeral plan wholesale. */
    method SetFuneralPlan(plan: FuneralPlan)
      modifies this
      ensures data == old(data).(funeralPlan := Some(plan))
      ensures storage == old(storage)[StorageKey := data]
      ensures Persisted()
    {
      data := data.(funeralPlan := Some(plan));
      Save();
    }

    /** The funeral plan, which is also what storage holds for it. */
    method GetFuneralPlan() returns (r: Option<FuneralPlan>)
      requires Valid()
      ensures r == data.funeralPlan
      ensures StorageKey in storage ==> r == storage[StorageKey].funeralPlan
    {
      r := data.funeralPlan;
    }

    /** Replaces the medical directive wholesale. */
    method SetMedicalDirective(directive: MedicalDirective)
      modifies this
      ensures data == old(data).(medicalDirective := Some(directive))
      ensures storage == old(storage)[StorageKey := data]
      ensures Persisted()
    {
      data := data.(medicalDirective := Some(directive));
      Save();
    }

    /** The medical directive, which is also what storage holds for it. */
    method GetMedicalDirective() returns (r: Option<MedicalDirective>)
      requires Valid()
      ensures r == data.medicalDirective
      ensures StorageKey in storage ==> r == storage[StorageKey].medicalDirective
    {
      r := data.medicalDirective;
    }
  }

  /** A will added and the store reopened on the same storage, as a page
      reload does: the reopened store lists the earlier wills and then the new
      one, or only the new one on a first start. */
  method ReopenAfterAddWill(storage: map<string, Document>, will: WillFields, now: int, nowIso: string)
    returns (added: Will, reopened: seq<Will>)
    ensures added == Stamped(now, nowIso, will)
    ensures StorageKey in storage ==> reopened == storage[StorageKey].wills + [added]
    ensures StorageKey !in storage ==> reopened == [added]
  {
    var store := new DataStore(storage);
    added := store.AddWill(will, now, nowIso);
    var again := new DataStore(store.storage);
    reopened := again.GetWills();
  }

  /** Two funeral plans set one after the other: the getter returns only the
      second, with nothing merged from the first, and the other slots and
      lists are those the store was opened with. */
  method OverwriteFuneralPlan(storage: map<string, Document>, first: FuneralPlan, second: FuneralPlan)
    returns (got: Option<FuneralPlan>, stored: Document)
    ensures got == Some(second)
    ensures StorageKey in storage ==> stored == storage[StorageKey].(funeralPlan := Some(second))
    ensures StorageKey !in storage ==> stored == DefaultDocument().(funeralPlan := Some(second))
  {
    var store := new DataStore(storage);
    store.SetFuneralPlan(first);
    store.SetFuneralPlan(second);
    got := store.GetFuneralPlan();
    stored := store.storage[StorageKey];
  }

  /** Two belongings added within the same millisecond get the same id, and a
      delete of that id removes both, leaving the list as it was before. */
  method SameInstantBelongings(storage: map<string, Document>, a: BelongingFields, b: BelongingFields,
                               now: int, isoA: string, isoB: string)
    returns (first: Belonging, second: Belonging, remaining: seq<Belonging>)
    ensures first.id == second.id == now
    ensures StorageKey in storage ==> remaining == Without(storage[StorageKey].belongings, now)
    ensures StorageKey !in storage ==> remaining == []
  {
    var store := new DataStore(storage);
    var before := store.data.belongings;
    first := store.AddBelonging(a, now, isoA);
    second := store.AddBelonging(b, now, isoB);
    SameInstantAddsDeletedTogether(before, a, b, now, isoA, isoB);
    store.DeleteBelonging(now);
    remaining := store.GetBelongings();
  }

  /** Deleting the same will id twice leaves the store, memory and storage
      alike, exactly as the first delete left it. */
  method DeleteWillTwice(storage: map<string, Document>, id: int)
    returns (afterOnce: Document, afterTwice: Document, storedTwice: Document)
    ensures afterTwice == afterOnce && storedTwice == afterOnce
    ensures forall k :: 0 <= k < |afterOnce.wills| ==> afterOnce.wills[k].id != id
  {
    var store := new DataStore(storage);
    WithoutIdempotent(store.data.wills, id);
    store.DeleteWill(id);
    afterOnce := store.data;
    store.DeleteWill(id);
    afterTwice := store.data;
    storedTwice := store.storage[StorageKey];
  }
}
