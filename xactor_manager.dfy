/** pkg/xactor/manager.go: the process-wide table of running actors, by
    name. An actor's Close (pkg/xactor/actor_groutine.go) stops its loop,
    which is not part of this model, and then takes its name out of the
    table; it is kept here as a closed flag and the deregistration. */
module XActorManager {
  import opened Wrappers

  /** ActorGroutine: an actor under its state's name. */
  class ActorGroutine {
    const name: string
    var closed: bool

    constructor (name: string)
      ensures this.name == name && !closed
    {
      this.name := name;
      closed := false;
    }
  }

  /** The `actors` map. */
  class Manager {
    var actors: map<string, ActorGroutine>

    /** Every actor is filed under its own name and is still running. */
    predicate Valid()
      reads this, actors.Values
    {
      forall k :: k in actors ==> actors[k].name == k && !actors[k].closed
    }

    constructor ()
      ensures actors == map[] && Valid()
    {
      actors := map[];
    }

    /** registerActor: a name already in the table is refused and the
        table is left as it was. */
    method RegisterActor(actor: ActorGroutine) returns (err: Option<string>)
      requires Valid() && !actor.closed
      modifies this
      ensures Valid()
      ensures err.Some? <==> actor.name in old(actors)
      ensures err.Some? ==> err.value == "actor " + actor.name + " is repeated" && actors == old(actors)
      ensures err.None? ==> actors == old(actors)[actor.name := actor]
    {
      if actor.name in actors {
        return Some("actor " + actor.name + " is repeated");
      }
      actors := actors[actor.name := actor];
      return None;
    }

    /** deregisterActor: the actor's name, and nothing else, leaves the
        table. */
    method DeregisterActor(actor: ActorGroutine)
      requires Valid()
      modifies this
      ensures Valid()
      ensures actors == old(actors) - {actor.name}
    {
      actors := actors - {actor.name};
    }

    /** GetActor: the actor filed under the name, or an error. */
    method GetActor(name: string) returns (r: Result<ActorGroutine>)
      ensures r.Ok? <==> name in actors
      ensures r.Ok? ==> r.value == actors[name]
      ensures r.Ok? && Valid() ==> r.value.name == name && !r.value.closed
      ensures r.Err? ==> r.msg == "actor[" + name + "] is nil"
    {
      if name !in actors {
        return Err("actor[" + name + "] is nil");
      }
      return Ok(actors[name]);
    }

    /** ActorGroutine.Close: closing the close channel a second time
        panics; otherwise the actor stops and deregisters itself. */
    method Close(actor: ActorGroutine) returns (panicked: bool)
      requires Valid()
      modifies this, actor
      ensures Valid()
      ensures panicked <==> old(actor.closed)
      ensures !panicked ==> actor.closed && actors == old(actors) - {actor.name}
      ensures panicked ==> actors == old(actors)
    {
      if actor.closed {
        return true;
      }
      actor.closed := true;
      actors := actors - {actor.name};
      return false;
    }

    /** CloseAll: close every actor of a snapshot of the table, in no
        particular order. Each is closed exactly once, so none panics, and
        the table ends empty. */
    method CloseAll()
      requires Valid()
      modifies this, actors.Values
      ensures Valid() && actors == map[]
      ensures forall a :: a in old(actors.Values) ==> a.closed
    {
      var rest := actors.Values;
      while rest != {}
        invariant Valid()
        invariant rest <= old(actors.Values)
        invariant forall a :: a in rest ==> a.name in actors && actors[a.name] == a
        invariant forall k :: k in actors ==> actors[k] in rest
        invariant forall a :: a in old(actors.Values) && a !in rest ==> a.closed
        decreases rest
      {
        var a :| a in rest;
        var panicked := Close(a);
        rest := rest - {a};
      }
      assert actors.Keys == {};
    }
  }
}
