/** The state store the rate limiter talks to: get / save / list keys /
    delete over counter records, with "not found" as a sentinel distinct from
    every other failure. The store is an in-memory map whose failures are
    injected through flags, standing for any backend that honours the same
    contract. */
module Store {
  import opened RateLimitState

  /** `StateNotFound` is the sentinel for an absent key; `Unavailable` stands
      for every other error a backend may report. */
  datatype StoreError = StateNotFound | Unavailable

  datatype Result<+T> = Ok(value: T) | Err(error: StoreError)

  /** The error channel of the operations that return nothing else. */
  datatype Status = Done | Failed(error: StoreError)

  predicate NoDuplicates(keys: seq<string>) {
    forall i, j :: 0 <= i < j < |keys| ==> keys[i] != keys[j]
  }

  class MapStore {
    var data: map<string, State>
    /** Injected failures: every Get, Save or ListKeys fails while its flag is
        set; Delete fails for the keys in `deleteFails`. */
    var getFails: bool
    var saveFails: bool
    var listFails: bool
    var deleteFails: set<string>

    constructor (data: map<string, State>, getFails: bool, saveFails: bool, listFails: bool, deleteFails: set<string>)
      ensures this.data == data && this.getFails == getFails && this.saveFails == saveFails
      ensures this.listFails == listFails && this.deleteFails == deleteFails
    {
      this.data := data;
      this.getFails := getFails;
      this.saveFails := saveFails;
      this.listFails := listFails;
      this.deleteFails := deleteFails;
    }

    /** The stored record, the not-found sentinel, or another failure. */
    method Get(key: string) returns (r: Result<State>)
      ensures getFails ==> r == Err(Unavailable)
      ensures !getFails && key in data ==> r == Ok(data[key])
      ensures !getFails && key !in data ==> r == Err(StateNotFound)
    {
      if getFails {
        return Err(Unavailable);
      }
      if key in data {
        return Ok(data[key]);
      }
      return Err(StateNotFound);
    }

    /** Stores the record under its own key, replacing any previous one. */
    method Save(s: State) returns (status: Status)
      modifies this`data
      ensures status == (if saveFails then Failed(Unavailable) else Done)
      ensures data == if saveFails then old(data) else old(data)[s.key := s]
    {
      if saveFails {
        return Failed(Unavailable);
      }
      data := data[s.key := s];
      return Done;
    }

    /** Every stored key once, in no particular order. */
    method ListKeys() returns (r: Result<seq<string>>)
      ensures listFails ==> r == Err(Unavailable)
      ensures !listFails ==> r.Ok? && NoDuplicates(r.value)
      ensures !listFails ==> forall k :: k in r.value <==> k in data
    {
      if listFails {
        return Err(Unavailable);
      }
      var keys: seq<string> := [];
      var rest := data.Keys;
      while rest != {}
        invariant rest <= data.Keys
        invariant forall k :: k in keys <==> k in data && k !in rest
        invariant NoDuplicates(keys)
        decreases rest
      {
        var k :| k in rest;
        keys := keys + [k];
        rest := rest - {k};
      }
      return Ok(keys);
    }

    /** Removes the key; deleting an absent key succeeds and changes nothing. */
    method Delete(key: string) returns (status: Status)
      modifies this`data
      ensures status == (if key in deleteFails then Failed(Unavailable) else Done)
      ensures data == if key in deleteFails then old(data) else old(data) - {key}
    {
      if key in deleteFails {
        return Failed(Unavailable);
      }
      data := data - {key};
      return Done;
    }
  }
}
