/**
 * One unit's ops applied to the world they reach through `AntInteractor`
 * (src/core/hardware/compile_args.hpp): its CPU state, the map, the entity it
 * controls and that entity's callback log. `MoveOp` hands its deltas to
 * `Map::move_entity`; `DigOp` hands them to `handle_dig`, whose body is not
 * part of this model, so a dig is recorded as a request and nothing more.
 */
module Unit {
  import opened Ints
  import opened Ops
  import opened TileMap
  import Scheduler

  datatype World = World(cpu: Cpu, grid: Grid, ant: Entity, callbacks: seq<Callback>, digs: seq<(SChar, SChar)>)

  /** The controlled entity stands on the grid. */
  predicate Placed(w: World) {
    w.grid.Valid() && InBounds(w.grid, w.ant.x, w.ant.y)
  }

  /** The controlled entity is registered on the tile of its position and on no other. */
  ghost predicate Registered(w: World) {
    Placed(w) && RegisteredOnlyAt(w.grid, w.ant)
  }

  /** Runs one op and carries out the effect it asks for. */
  function Perform(b: Builder, i: Instr, w: World): (r: World)
    requires Placed(w)
    ensures Placed(r)
    ensures r.cpu == Exec(i, w.cpu).cpu
    ensures !i.Move? ==> r.grid == w.grid && r.ant == w.ant && r.callbacks == w.callbacks
    ensures i.Dig? ==> r.digs == w.digs + [(i.dx, i.dy)]
    ensures !i.Dig? ==> r.digs == w.digs
  {
    var st := Exec(i, w.cpu);
    match st.effect
    case Silent => w.(cpu := st.cpu)
    case MoveBy(dx, dy) =>
      var m := MoveEntity(w.grid, b, w.ant, dx, dy, w.callbacks);
      w.(cpu := st.cpu, grid := m.grid, ant := m.entity, callbacks := m.log)
    case DigAt(dx, dy) => w.(cpu := st.cpu, digs := w.digs + [(dx, dy)])
  }

  /**
   * A Move op is exactly a call of `move_entity` with its own deltas: a
   * blocked destination leaves position, map and log as they were; a free
   * one moves the entity and logs the move with old and new coordinates.
   */
  lemma MoveIsMapMove(b: Builder, dx: SChar, dy: SChar, speed: ULong, w: World)
    requires Placed(w)
    ensures var r := Perform(b, Move(dx, dy, speed), w);
      var m := MoveEntity(w.grid, b, w.ant, dx, dy, w.callbacks);
      && r.cpu == w.cpu
      && r.grid == m.grid && r.ant == m.entity && r.callbacks == m.log
      && (!CanPlace(w.grid, b, w.ant.x + dx, w.ant.y + dy) ==> r.ant == w.ant && r.grid == w.grid)
      && (CanPlace(w.grid, b, w.ant.x + dx, w.ant.y + dy) ==>
            r.ant == Entity(w.ant.id, w.ant.x + dx, w.ant.y + dy)
            && r.callbacks == w.callbacks + [Moved(w.ant.id, w.ant.x, w.ant.y, w.ant.x + dx, w.ant.y + dy)])
  {
  }

  /** Every op keeps the controlled entity registered on exactly the tile it stands on. */
  lemma PerformKeepsRegistration(b: Builder, i: Instr, w: World)
    requires Registered(w)
    ensures Registered(Perform(b, i, w))
  {
    if i.Move? {
      MoveKeepsSingleTile(w.grid, b, w.ant, i.dx, i.dy, w.callbacks);
    }
  }

  /** One clock pulse of the unit in its world, under the driver assumption of `Scheduler`. */
  function Pulse(b: Builder, prog: seq<Instr>, w: World): (r: World)
    requires Placed(w)
    ensures Placed(r)
    ensures r.cpu == Scheduler.Tick(prog, w.cpu).cpu
  {
    if w.cpu.opIdx < |prog| then
      var p := Perform(b, prog[w.cpu.opIdx], w);
      p.(cpu := p.cpu.(opIdx := ToUShort(p.cpu.opIdx + 1)))
    else w
  }

  /** `n` clock pulses. */
  function RunWorld(b: Builder, prog: seq<Instr>, w: World, n: nat): (r: World)
    requires Placed(w)
    ensures Placed(r)
    decreases n
  {
    if n == 0 then w else RunWorld(b, prog, Pulse(b, prog, w), n - 1)
  }

  /** However long the program runs, the controlled entity stays registered on exactly its own tile. */
  lemma {:induction false} RunKeepsRegistration(b: Builder, prog: seq<Instr>, w: World, n: nat)
    requires Registered(w)
    ensures Registered(RunWorld(b, prog, w, n))
    decreases n
  {
    if n > 0 {
      if w.cpu.opIdx < |prog| {
        PerformKeepsRegistration(b, prog[w.cpu.opIdx], w);
      }
      RunKeepsRegistration(b, prog, Pulse(b, prog, w), n - 1);
    }
  }
}
