/** The checkpoint map of `ETLAutomation` (`etl_checkpoint.json`): one entry
    per script name, each holding the last status recorded for that script. */
module Checkpoint {
  import opened Values

  datatype Status = Success | Failed | Error

  /** The `details` dictionary of an entry, by the three shapes the
      script runner writes. */
  datatype Details =
    | Attempt(attempt: nat, description: string)
    | ExitFailure(stderr: string, returnCode: int)
    | Exception(message: string)

  datatype Entry = Entry(status: Status, timestamp: string, details: Details)

  type Store = map<string, Entry>

  /** `load_checkpoint`. `file` is the checkpoint file: `None` when it does
      not exist, otherwise what `json.load` makes of it, an error when the
      file is not valid JSON. Only files holding a map of entries are
      modelled. */
  function Load(file: Option<Result<Store, string>>): (r: Result<Store, string>)
    ensures file.None? ==> r == Ok(map[])
    ensures file.Some? ==> r == file.value
  {
    match file
    case None => Ok(map[])
    case Some(parsed) => parsed
  }

  /** `save_checkpoint`: records `status` for `step` and keeps every other
      step's entry. The file write that follows is not modelled. */
  function Save(store: Store, step: string, status: Status, timestamp: string, details: Details): (r: Store)
    ensures r.Keys == store.Keys + {step}
    ensures r[step] == Entry(status, timestamp, details)
    ensures forall k :: k in store && k != step ==> r[k] == store[k]
  {
    store[step := Entry(status, timestamp, details)]
  }

  /** A later save of the same step replaces the earlier one entirely. */
  lemma SaveOverwrites(store: Store, step: string, s1: Status, t1: string, d1: Details,
                       s2: Status, t2: string, d2: Details)
    ensures Save(Save(store, step, s1, t1, d1), step, s2, t2, d2) == Save(store, step, s2, t2, d2)
  {
    var a := Save(Save(store, step, s1, t1, d1), step, s2, t2, d2);
    var b := Save(store, step, s2, t2, d2);
    assert a.Keys == b.Keys;
    assert forall k :: k in a ==> a[k] == b[k];
  }

  /** Saves of different steps do not interfere, whatever their order. */
  lemma SavesCommute(store: Store, step1: string, s1: Status, t1: string, d1: Details,
                     step2: string, s2: Status, t2: string, d2: Details)
    requires step1 != step2
    ensures Save(Save(store, step1, s1, t1, d1), step2, s2, t2, d2)
         == Save(Save(store, step2, s2, t2, d2), step1, s1, t1, d1)
  {
    var a := Save(Save(store, step1, s1, t1, d1), step2, s2, t2, d2);
    var b := Save(Save(store, step2, s2, t2, d2), step1, s1, t1, d1);
    assert a.Keys == b.Keys;
    assert forall k :: k in a ==> a[k] == b[k];
  }
}
