/**
 * The system-configuration endpoints over the singleton document
 * `system_config`: reading it (creating the default on first use) and
 * updating it.
 */
module SystemConfigApi {
  import opened Wrappers
  import opened SubmissionModel
  import opened Store
  import opened Http

  /** The fixed `_id` of the only configuration document. */
  const ConfigId: string := "system_config"
  const NothingToUpdateDetail: string := "No valid fields to update"

  /** The default document: signup allowed, stamped with two clock readings. */
  function DefaultConfig(createdAt: Time, updatedAt: Time): (c: ConfigDoc)
    ensures c.allowSignup == Some(true)
  {
    ConfigDoc(Some(true), createdAt, updatedAt)
  }

  /**
   * `get_system_config`: the stored document, or the default, which is then
   * stored. The response's `id` is the fixed id.
   */
  method GetSystemConfig(db: Database, createdAt: Time, updatedAt: Time) returns (id: string, doc: ConfigDoc)
    requires db.Valid()
    modifies db
    ensures db.Valid()
    ensures db.submissions == old(db.submissions) && db.problems == old(db.problems) && db.users == old(db.users)
    ensures id == ConfigId
    ensures old(db.config).Some? ==> doc == old(db.config).value && db.config == old(db.config)
    ensures old(db.config).None? ==> doc == DefaultConfig(createdAt, updatedAt) && db.config == Some(doc)
  {
    if db.config.None? {
      db.config := Some(DefaultConfig(createdAt, updatedAt));
    }
    doc := db.config.value;
    id := ConfigId;
  }

  /** The body of an update: `allow_signup` or nothing. */
  datatype SystemConfigUpdate = SystemConfigUpdate(allowSignup: Option<bool>)

  /**
   * `$set` of the update's fields and `updated_at`; `created_at` is kept.
   */
  function ApplyConfigUpdate(c: ConfigDoc, allowSignup: bool, now: Time): (r: ConfigDoc)
    ensures r.allowSignup == Some(allowSignup) && r.updatedAt == now && r.createdAt == c.createdAt
  {
    c.(allowSignup := Some(allowSignup), updatedAt := now)
  }

  /** Updating twice with the same value is updating once. */
  lemma {:induction false} ConfigUpdateIdempotent(c: ConfigDoc, allowSignup: bool, now: Time)
    ensures ApplyConfigUpdate(ApplyConfigUpdate(c, allowSignup, now), allowSignup, now) == ApplyConfigUpdate(c, allowSignup, now)
  {
  }

  /**
   * After an update, signup is open exactly when the update said so,
   * whatever was stored before.
   */
  lemma {:induction false} UpdateDecidesSignup(c: ConfigDoc, allowSignup: bool, now: Time)
    ensures SignupClosed(Some(ApplyConfigUpdate(c, allowSignup, now))) <==> !allowSignup
  {
  }

  /**
   * `update_system_config`: fields sent as `None` are dropped and an update
   * left empty is a 400 that changes nothing. Otherwise the stored document
   * gets the fields and `updated_at`, or, when none is stored, the default
   * overridden by them is inserted.
   */
  method UpdateSystemConfig(db: Database, input: SystemConfigUpdate, now: Time, createdAt: Time, defaultUpdatedAt: Time)
    returns (r: Result<(string, ConfigDoc), HttpError>)
    requires db.Valid()
    modifies db
    ensures db.Valid()
    ensures db.submissions == old(db.submissions) && db.problems == old(db.problems) && db.users == old(db.users)
    ensures input.allowSignup.None? ==>
      r == Err(HttpError(BadRequest, NothingToUpdateDetail)) && db.config == old(db.config)
    ensures input.allowSignup.Some? && old(db.config).None? ==>
      && r == Ok((ConfigId, ApplyConfigUpdate(DefaultConfig(createdAt, defaultUpdatedAt), input.allowSignup.value, now)))
      && db.config == Some(r.value.1)
    ensures input.allowSignup.Some? && old(db.config).Some? ==>
      && r == Ok((ConfigId, ApplyConfigUpdate(old(db.config).value, input.allowSignup.value, now)))
      && db.config == Some(r.value.1)
  {
    if input.allowSignup.None? {
      return Err(HttpError(BadRequest, NothingToUpdateDetail));
    }
    var stored := if db.config.Some? then db.config.value else DefaultConfig(createdAt, defaultUpdatedAt);
    var updated := ApplyConfigUpdate(stored, input.allowSignup.value, now);
    db.config := Some(updated);
    r := Ok((ConfigId, updated));
  }
}
