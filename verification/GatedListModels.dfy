/** A list model that shows another one, or nothing while its gate is closed.
  *
  * A listener knows a list only by replaying the changes announced to it.  What it holds is compared
  * with what the model shows, over every history of the gate, of the model behind it, and of changes
  * within that model.
  */
module GatedListModels {
  import opened Replication

  /** An announced change, with the items a listener then reads at the new positions. */
  datatype Change<T> = Change(position: nat, removed: nat, added: seq<T>)

  /** Every position and count is in range when its turn comes. */
  predicate Replayable<T>(s: seq<T>, cs: seq<Change<T>>)
    decreases |cs|
  {
    if cs == [] then true
    else
      && cs[0].position + cs[0].removed <= |s|
      && Replayable(Splice(s, cs[0].position, cs[0].removed, cs[0].added), cs[1..])
  }

  function Replay<T>(s: seq<T>, cs: seq<Change<T>>): seq<T>
    requires Replayable(s, cs)
    decreases |cs|
  {
    if cs == [] then s else Replay(Splice(s, cs[0].position, cs[0].removed, cs[0].added), cs[1..])
  }

  /** The whole list replaced; nothing is said if there was and is nothing. */
  function Replaced<T>(was: seq<T>, now: seq<T>): seq<Change<T>> {
    if was == [] && now == [] then [] else [Change(0, |was|, now)]
  }

  lemma {:induction false} ReplayOne<T>(s: seq<T>, cs: seq<Change<T>>, c: Change<T>)
    requires Replayable(s, cs) && c.position + c.removed <= |Replay(s, cs)|
    ensures Replayable(s, cs + [c])
    ensures Replay(s, cs + [c]) == Splice(Replay(s, cs), c.position, c.removed, c.added)
    decreases |cs|
  {
    if cs == [] {
      assert [c][1..] == [] && cs + [c] == [c];
    } else {
      assert (cs + [c])[0] == cs[0] && (cs + [c])[1..] == cs[1..] + [c];
      ReplayOne(Splice(s, cs[0].position, cs[0].removed, cs[0].added), cs[1..], c);
    }
  }

  class Model<T> {
    var items: seq<T>

    constructor (items: seq<T>)
      ensures this.items == items
    {
      this.items := items;
    }
  }

  class GatedListModel<T> {
    var model: Model?<T>
    var gated: bool
    /** Everything announced so far, oldest first. */
    ghost var announced: seq<Change<T>>

    constructor ()
      ensures Valid() && model == null && !gated
    {
      model, gated, announced := null, false, [];
    }

    function NItems(): nat
      reads this, model
      ensures NItems() == |Visible()|
    {
      if gated || model == null then 0 else |model.items|
    }

    ghost function Visible(): seq<T>
      reads this, model
    {
      if gated || model == null then [] else model.items
    }

    /** What a listener holds that has been there from the beginning. */
    ghost function Heard(): seq<T>
      requires Replayable([], announced)
      reads this
    {
      Replay([], announced)
    }

    /** The listener holds what the model shows. */
    ghost predicate Valid()
      reads this, model
    {
      Replayable([], announced) && Heard() == Visible()
    }

    method ItemsChanged(position: nat, removed: nat, added: nat)
      requires Replayable([], announced) && position + removed <= |Heard()| && position + added <= NItems()
      modifies this`announced
      ensures announced == old(announced) + [Change(position, removed, Visible()[position..position + added])]
      ensures Replayable([], announced)
      ensures Heard() == Splice(old(Heard()), position, removed, Visible()[position..position + added])
    {
      ghost var c := Change(position, removed, Visible()[position..position + added]);
      ReplayOne([], announced, c);
      announced := announced + [c];
    }

    /** The model behind the gate has changed from `before` and says where. */
    method ItemsChangedCb(position: nat, removed: nat, added: nat, ghost before: seq<T>)
      requires model != null && Replayable([], announced)
      requires Heard() == if gated then [] else before
      requires position + removed <= |before| && position + added <= |model.items|
      requires model.items == Splice(before, position, removed, model.items[position..position + added])
      modifies this`announced
      ensures Valid()
      ensures Heard() == if gated || model == null then [] else model.items
      ensures announced == old(announced)
                + if gated then [] else [Change(position, removed, model.items[position..position + added])]
    {
      if gated { return; }
      ItemsChanged(position, removed, added);
    }

    method SetModel(model: Model?<T>)
      requires Valid()
      modifies this
      ensures Valid() && this.model == model && gated == old(gated)
      ensures Heard() == if this.gated || this.model == null then [] else this.model.items
      ensures announced == old(announced)
                + if model == old(this.model) then [] else Replaced(old(Visible()), Visible())
    {
      hide Replay, Replayable;
      var oldNItems, newNItems := 0, 0;
      if model == this.model { return; }
      if model != null {
        newNItems := |model.items|;
      }
      if this.model != null {
        oldNItems := |this.model.items|;
      }
      this.model := model;
      ghost var now := Visible();
      assert now[0..|now|] == now;
      if !gated && (oldNItems != 0 || newNItems != 0) {
        ItemsChanged(0, oldNItems, newNItems);
      }
    }

    method SetGated(gated: bool)
      requires Valid()
      modifies this
      ensures Valid() && this.gated == gated && model == old(model)
      ensures Heard() == if this.gated || this.model == null then [] else this.model.items
      ensures announced == old(announced)
                + if gated == old(this.gated) then [] else Replaced(old(Visible()), Visible())
    {
      hide Replay, Replayable;
      var oldNItems, newNItems := 0, 0;
      if gated == this.gated { return; }
      if model != null {
        if gated {
          oldNItems := |model.items|;
        } else {
          newNItems := |model.items|;
        }
      }
      this.gated := gated;
      ghost var now := Visible();
      assert now[0..|now|] == now;
      if oldNItems != 0 || newNItems != 0 {
        ItemsChanged(0, oldNItems, newNItems);
      }
    }
  }
}
