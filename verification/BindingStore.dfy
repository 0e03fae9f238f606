// Publishing an account-binding document: read, change and rename under a
// lock, with crashes and failures in between and a status for every failure.
module BindingStore {
  import opened AccountBindings
  import opened Wrappers

  // What a file of the binding directory holds; a write that was cut short
  // leaves a file that is no document.
  datatype Stored = Missing | Broken | Readable(document: Document)

  datatype Status = NotPublished | Unknown | Complete

  // The joined errors of a failed update, in order: for each binding error the
  // status it carries, nothing for any other error.
  type Errors = seq<Option<Status>>

  const PLAIN: Errors := [None]
  const BEFORE_RENAME: Errors := [Some(NotPublished)]
  const AFTER_RENAME: Errors := [Some(Unknown)]

  // errors.As: the first binding error of the list speaks for it.
  function StatusOf(errors: Errors): Status {
    if errors == [] then NotPublished else if errors[0].Some? then errors[0].value else StatusOf(errors[1..])
  }

  lemma {:induction false} FirstStatusCounts(a: Errors, b: Errors)
    ensures StatusOf(a + b) == if forall e :: e in a ==> e.None? then StatusOf(b) else StatusOf(a)
  {
    if a == [] {
      assert a + b == b;
    } else if a[0].Some? {
      assert a[0] in a;
    } else {
      FirstStatusCounts(a[1..], b);
      assert (a + b)[1..] == a[1..] + b;
      assert a == [a[0]] + a[1..];
    }
  }

  // The directory. Every operation may fail, unless it is reliable, where
  // nobody cancels either; `trace` is the document file at every moment at
  // which the process may crash.
  class Directory {
    const reliable: bool
    var file: Stored
    var temporaries: map<nat, Stored>
    ghost var trace: seq<Stored>

    ghost predicate Valid()
      reads this
    {
      trace != [] && trace[|trace| - 1] == file
    }

    method WriteTemporary(name: nat, d: Document) returns (ok: bool)
      requires Valid()
      modifies this
      ensures Valid() && file == old(file) && trace == old(trace) + [file]
      ensures ok ==> temporaries == old(temporaries)[name := Readable(d)]
      ensures reliable ==> ok
    {
      ok := *;
      ok := ok || reliable;
      var written: bool := *;
      if ok {
        temporaries := temporaries[name := Readable(d)];
      } else if written {
        temporaries := temporaries[name := Broken];
      }
      trace := trace + [file];
    }

    method RemoveTemporary(name: nat) returns (ok: bool)
      requires Valid()
      modifies this
      ensures Valid() && file == old(file) && trace == old(trace) + [file]
      ensures reliable ==> ok
    {
      ok := *;
      ok := ok || reliable;
      if ok {
        temporaries := temporaries - {name};
      }
      trace := trace + [file];
    }

    method Rename(name: nat) returns (ok: bool)
      requires Valid() && name in temporaries
      modifies this
      ensures Valid() && trace == old(trace) + [file]
      ensures file == if ok then old(temporaries)[name] else old(file)
      ensures reliable ==> ok
    {
      ok := *;
      ok := ok || reliable;
      if ok {
        file, temporaries := temporaries[name], temporaries - {name};
      }
      trace := trace + [file];
    }

    method Sync() returns (ok: bool)
      requires Valid()
      modifies this
      ensures Valid() && file == old(file) && trace == old(trace) + [file]
      ensures reliable ==> ok
    {
      ok := *;
      ok := ok || reliable;
      trace := trace + [file];
    }
  }

  type Update = Document -> Result<Document, Errors>

  // An update function knows nothing of publication.
  ghost predicate BeforePublication(update: Update) {
    forall d :: update(d).Failure? ==> StatusOf(update(d).error) == NotPublished
  }

  function Load(n: Names, stored: Stored): Result<Document, Code> {
    match stored
    case Missing => Success(Document(VERSION, []))
    case Broken => Failure(Invalid)
    case Readable(d) => Validate(n, d)
  }

  // The document that an update writes, if it gets that far. Whether the
  // encoded document fits the size limit is for `fits` to say.
  function Planned(n: Names, fits: Document -> bool, stored: Stored, update: Update): Option<Document> {
    var loaded := Load(n, stored);
    if loaded.Failure? then None
    else
      var changed := update(loaded.value);
      if changed.Failure? then None
      else
        var valid := Validate(n, changed.value);
        if valid.Failure? || !fits(valid.value) then None else Some(valid.value)
  }

  // A status tells the truth: without one, nothing has changed; with one, or
  // without an error, the planned document has been renamed into place.
  ghost predicate Truthful(r: Option<Errors>, before: Stored, planned: Option<Document>, after: Stored) {
    if r.Some? && StatusOf(r.value) == NotPublished then after == before
    else planned.Some? && after == Readable(planned.value)
  }

  // From `was` to `now` the file was the old document until it became, once
  // and for all, what it is at the end.
  ghost predicate OldThenNew(before: Stored, after: Stored, was: seq<Stored>, now: seq<Stored>) {
    was <= now && forall j, k :: |was| <= j <= k < |now| ==> now[j] == before || now[k] == after
  }

  method WriteAccountBindings(disk: Directory, d: Document, temporary: nat) returns (r: Option<Errors>)
    requires disk.Valid()
    modifies disk
    ensures disk.Valid()
    ensures OldThenNew(old(disk.file), disk.file, old(disk.trace), disk.trace)
    ensures Truthful(r, old(disk.file), Some(d), disk.file)
    ensures r.Some? ==> StatusOf(r.value) != Complete
    ensures disk.reliable ==> r.None?
  {
    var identityHolds: bool := *;
    if !identityHolds && !disk.reliable {
      return Some(BEFORE_RENAME);
    }
    var ok := disk.WriteTemporary(temporary, d);
    if !ok {
      return Some(BEFORE_RENAME);
    }
    identityHolds := *;
    if !identityHolds && !disk.reliable {
      var removed := disk.RemoveTemporary(temporary);
      return Some(if removed then BEFORE_RENAME else BEFORE_RENAME + PLAIN);
    }
    ok := disk.Rename(temporary);
    if !ok {
      var _ := disk.RemoveTemporary(temporary);
      return Some(BEFORE_RENAME);
    }
    ok := disk.Sync();
    if !ok {
      return Some(AFTER_RENAME);
    }
    identityHolds := *;
    if !identityHolds && !disk.reliable {
      return Some(AFTER_RENAME);
    }
    return None;
  }

  method UpdateAccountBindingsLocked(
    n: Names, fits: Document -> bool, disk: Directory, update: Update, temporary: nat) returns (r: Option<Errors>)
    requires disk.Valid() && BeforePublication(update)
    modifies disk
    ensures disk.Valid()
    ensures OldThenNew(old(disk.file), disk.file, old(disk.trace), disk.trace)
    ensures Truthful(r, old(disk.file), Planned(n, fits, old(disk.file), update), disk.file)
    ensures r.Some? ==> StatusOf(r.value) != Complete
    ensures disk.reliable ==> (r.None? <==> Planned(n, fits, old(disk.file), update).Some?)
  {
    var prepared: bool := *;
    if !prepared && !disk.reliable {
      return Some(BEFORE_RENAME);
    }
    var stale: nat := *;
    var swept := disk.RemoveTemporary(stale);
    if !swept {
      return Some(BEFORE_RENAME);
    }
    var loaded := Load(n, disk.file);
    if loaded.Failure? {
      return Some(BEFORE_RENAME);
    }
    var cancelled: bool := *;
    if cancelled && !disk.reliable {
      return Some(BEFORE_RENAME);
    }
    var changed := update(loaded.value);
    if changed.Failure? {
      return Some(changed.error);
    }
    var valid := ValidateAccountBindingFile(n, changed.value);
    if valid.Failure? || !fits(valid.value) {
      return Some(BEFORE_RENAME);
    }
    cancelled := *;
    if cancelled && !disk.reliable {
      return Some(BEFORE_RENAME);
    }
    r := WriteAccountBindings(disk, valid.value, temporary);
  }

  // A lock that cannot be released adds its error, with the status of the
  // update itself.
  function FinishAccountBindingUpdate(result: Option<Errors>, released: bool): Option<Errors> {
    if released then result
    else if result.None? then Some([Some(Complete)])
    else Some(result.value + [Some(StatusOf(result.value))])
  }

  lemma FinishingKeepsStatus(result: Option<Errors>, released: bool)
    ensures
      var r := FinishAccountBindingUpdate(result, released);
      if result.Some? then r.Some? && StatusOf(r.value) == StatusOf(result.value)
      else r.None? <==> released
    ensures
      var r := FinishAccountBindingUpdate(result, released);
      result.None? && !released ==> StatusOf(r.value) == Complete
  {
    if result.Some? && !released {
      FirstStatusCounts(result.value, [Some(StatusOf(result.value))]);
      NoStatus(result.value);
    }
  }

  lemma {:induction false} NoStatus(errors: Errors)
    ensures (forall e :: e in errors ==> e.None?) ==> StatusOf(errors) == NotPublished
  {
    if errors != [] && forall e :: e in errors ==> e.None? {
      assert errors[0] in errors;
      NoStatus(errors[1..]);
    }
  }

  // A whole update: the lock may be refused and its release may fail.
  method UpdateAccountBindings(
    n: Names, fits: Document -> bool, disk: Directory, update: Update, temporary: nat) returns (r: Option<Errors>)
    requires disk.Valid() && BeforePublication(update)
    modifies disk
    ensures disk.Valid()
    ensures OldThenNew(old(disk.file), disk.file, old(disk.trace), disk.trace)
    ensures Truthful(r, old(disk.file), Planned(n, fits, old(disk.file), update), disk.file)
    ensures disk.reliable ==> (r.None? <==> Planned(n, fits, old(disk.file), update).Some?)
  {
    var locked: bool := *;
    if !locked && !disk.reliable {
      return Some(BEFORE_RENAME);
    }
    var result := UpdateAccountBindingsLocked(n, fits, disk, update, temporary);
    var released: bool := *;
    released := released || disk.reliable;
    FinishingKeepsStatus(result, released);
    r := FinishAccountBindingUpdate(result, released);
  }
}
