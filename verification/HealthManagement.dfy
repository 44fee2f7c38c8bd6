/** Supervised entities and the aggregated health verdict. */
module HealthManagement {
  datatype SupervisionStatus = Ok | Failed | Expired | Stopped | Deactivated
  datatype GlobalStatus = Normal | GFailed | GExpired | GStopped

  type Entities = map<string, SupervisionStatus>

  /** The worst status any entity has: Expired over Failed over Stopped. */
  function WorstOf(e: Entities): GlobalStatus {
    if Expired in e.Values then GExpired
    else if Failed in e.Values then GFailed
    else if Stopped in e.Values then GStopped
    else Normal
  }

  /** A checkpoint of a known entity makes it Ok, whatever the checkpoint's number. */
  function Reported(e: Entities, id: string): Entities {
    if id in e then e[id := Ok] else e
  }

  class PlatformHealthManagement {
    var entities: Entities
    var running: bool

    constructor ()
      ensures entities == map[] && !running
    {
      entities, running := map[], false;
    }

    method Start()
      modifies this`running
      ensures running
    {
      running := true;
    }

    method Stop()
      modifies this`running
      ensures !running
    {
      running := false;
    }

    method RegisterEntity(id: string) returns (added: bool)
      modifies this`entities
      ensures added <==> id !in old(entities)
      ensures entities == if added then old(entities)[id := Ok] else old(entities)
    {
      if id in entities {
        return false;
      }
      entities := entities[id := Ok];
      added := true;
    }

    method UnregisterEntity(id: string)
      modifies this`entities
      ensures entities == old(entities) - {id}
    {
      entities := entities - {id};
    }

    method ReportCheckpoint(id: string, checkpoint: nat)
      modifies this`entities
      ensures entities == Reported(old(entities), id)
    {
      if id !in entities {
        return;
      }
      entities := entities[id := Ok];
    }

    /** The entities are visited in no particular order, and the visit stops at the first Expired one. */
    method GetGlobalStatus() returns (global: GlobalStatus)
      ensures global == WorstOf(entities)
    {
      global := Normal;
      var todo := entities.Keys;
      while todo != {}
        invariant todo <= entities.Keys
        invariant global != GExpired
        invariant forall id | id in entities && id !in todo :: entities[id] != Expired
        invariant global == GFailed <==> exists id :: id in entities && id !in todo && entities[id] == Failed
        invariant global == Normal ==> forall id | id in entities && id !in todo :: entities[id] != Stopped
        invariant global == GStopped ==> exists id :: id in entities && id !in todo && entities[id] == Stopped
        decreases |todo|
      {
        var id :| id in todo;
        var s := entities[id];
        todo := todo - {id};
        if s == Expired {
          global := GExpired;
          assert entities[id] in entities.Values;
          return;
        } else if s == Failed {
          global := GFailed;
        } else if s == Stopped && global == Normal {
          global := GStopped;
        }
      }
    }
  }

  /** The verdict by the statuses present: Ok and Deactivated do not count, and the others count in this order. */
  lemma VerdictMeans(e: Entities)
    ensures WorstOf(e) == GExpired <==> exists id :: id in e && e[id] == Expired
    ensures WorstOf(e) == Normal <==> forall id | id in e :: e[id] == Ok || e[id] == Deactivated
    ensures WorstOf(e) == GStopped <==>
            (exists id :: id in e && e[id] == Stopped) && forall id | id in e :: e[id] != Expired && e[id] != Failed
  {
    forall id | id in e
      ensures e[id] in e.Values
    {
    }
    assert forall s | s in e.Values :: exists id :: id in e && e[id] == s;
  }

  /**
   The fault checkpoint the vehicle signal component reports after repeated E2E
   errors is a checkpoint like any other: it can only make the verdict better.
   */
  lemma CheckpointNeverWorsens(e: Entities, id: string)
    ensures WorstOf(Reported(e, id)) == GExpired ==> WorstOf(e) == GExpired
    ensures WorstOf(Reported(e, id)) == GFailed ==> WorstOf(e) == GExpired || WorstOf(e) == GFailed
    ensures WorstOf(e) == Normal ==> WorstOf(Reported(e, id)) == Normal
  {
    assert forall s | s in Reported(e, id).Values :: s == Ok || s in e.Values;
  }
}
