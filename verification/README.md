# ants: instruction set, tile map and layout core in Dafny

This project models three parts of the `ants` programming game in Dafny and
proves properties of each part.

- **The unit instruction set** (`src/core/hardware/op_def.cpp`). Each ant runs a
  program of ops against two registers, a shared zero flag and an
  `unsigned short` op counter. The ops are LoadConstant, Copy, Add, Sub, Inc,
  Dec, Jmp, Jnz, Move, Dig and NoOp. `Ops.Exec` is one dispatch function over an
  explicit CPU state, and it names registers by index, so an op's source and
  destination may be the same register. `Scheduler` adds the per-pulse driver
  that runs one op and then advances the counter. `Unit` connects Move to the
  map and records Dig requests.
- **Tile-map bookkeeping** (`src/core/entity/map.hpp`). This covers the
  row-major tile grid, placing, removing and moving entities with their move
  callback, stamping buildings, exploring tiles, refreshing the field of view,
  and clicks. The `MapBuilder` queries are function values, so every property
  holds for any builder.
- **Layout and the text box** (`src/render.cpp`). This covers the `LayoutBox`
  constructors, `get_abs_pos`, `split` and `center`, all in C++ `long` and
  `unsigned long` arithmetic with wrap-around written out. It also covers the
  framed text `Box`: `checkInputText`, `populateChar` and `populate`.

Modules: `Ints` (C++ integer widths and conversions, LP64), `Options`, `Ops`,
`Scheduler`, `TileMap`, `Unit`, `Layout` and `AsciiBox`.

Assumptions the source does not settle:

- **Register width.** The width of `cpu_word_size` is not part of this model.
  Registers are unsigned 16-bit words (`Ops.WordModulus`). No property depends
  on the particular width.
- **The pulse driver.** The body of `Operations::handleClockPulse` is not part
  of this model. `Scheduler.Tick` assumes the behaviour the jump encoding
  presupposes: run the op the counter indexes, then add one to the counter. The
  addition is taken in `unsigned short`, the type of the counter the ops hold
  (`ushort& op_idx` in `AntInteractor`, compile_args.hpp:24). Under this
  assumption a jump to target 0, which stores 65535, lands on 0. The source
  points both ways here. `Operations` itself declares its counter as
  `size_t op_idx` (operations.hpp:16), and a `ushort&` cannot bind to that
  member. With a `size_t` counter the same jump lands on 65536 and the unit
  idles (`Scheduler.WideCounterJumpToZeroIdles`).
- **LayoutBox fields.** The `LayoutBox` declaration is not part of this model.
  Its constructors take `long`, so its fields are modelled as `long`.
  `get_abs_pos` adds in `long`. A sum outside that range is undefined
  behaviour in C++ and is modelled as a two's-complement wrap.

## Model

| member | source | states |
|---|---|---|
| Ops.Exec | src/core/hardware/op_def.cpp:8-140 | Each register-writing op sets the zero flag exactly when the register it wrote is 0 and leaves the other register alone. Every other op keeps registers and flag. Only jumps change the counter. Only Move and Dig ask anything of the map. |
| Ops.MakeJmp | src/core/hardware/op_def.cpp:115-116 | Building a Jmp for a target gives a Jmp whose stored value plus one, modulo 2^16, is the target. |
| Ops.MakeJnz | src/core/hardware/op_def.cpp:127-128 | Building a Jnz for a target gives a Jnz whose stored value plus one, modulo 2^16, is the target. |
| Ops.PreDecrement | src/core/hardware/op_def.cpp:115-116 | The stored jump value is one less than the target in `unsigned short`: adding one back modulo 2^16 gives the target. |
| Ops.LoadConstantSemantics | src/core/hardware/op_def.cpp:17-22 | LoadConstant writes the value, sets the flag iff the value is 0, and keeps the counter. |
| Ops.CopySemantics | src/core/hardware/op_def.cpp:55-60 | After Copy the destination equals the old source, the source is unchanged, and the flag is set iff the source is 0. |
| Ops.AddSemantics | src/core/hardware/op_def.cpp:69-74 | Add is addition modulo the word size. With source and destination the same register it doubles that register. |
| Ops.SubSemantics | src/core/hardware/op_def.cpp:83-88 | Sub is subtraction modulo the word size. |
| Ops.SubSelfClears | src/core/hardware/op_def.cpp:83-88 | Subtracting a register from itself leaves 0 and sets the flag. |
| Ops.AddThenSubRestores | src/core/hardware/op_def.cpp:69-88 | For distinct registers, Sub undoes Add even across wrap-around. |
| Ops.AliasedAddThenSubClears | src/core/hardware/op_def.cpp:69-88 | When the two operands alias, Add then Sub leaves 0, not the original value. |
| Ops.IncDecRoundTrip | src/core/hardware/op_def.cpp:95-112 | Dec undoes Inc and Inc undoes Dec, with wrap-around. After Inc the flag tracks the register. After Inc then Dec it is set iff the original value was 0. |
| Ops.JmpSemantics | src/core/hardware/op_def.cpp:115-124 | Jmp sets the counter to target - 1 in `unsigned short` whatever the flag, so target 0 stores 65535. Nothing else changes. |
| Ops.JnzSemantics | src/core/hardware/op_def.cpp:127-140 | Jnz changes nothing when the flag is set. Otherwise it acts exactly as Jmp to the same target. |
| Ops.InertOps | src/core/hardware/op_def.cpp:8-46 | NoOp, Move and Dig leave the CPU state unchanged. Move and Dig forward exactly their deltas. Their speed is never used. |
| Scheduler.Tick | src/core/hardware/operations.hpp:27 | With the counter past the program, a pulse is idle. Otherwise the registers are those the indexed op produces, and after a non-jump the counter is one more in `unsigned short`. |
| Scheduler.Run | src/core/hardware/operations.hpp:27 | n pulses in a row yield one effect per pulse. What they compute is stated by `Scheduler.HaltedStaysHalted`, `Scheduler.SelfJumpLoops`, `Scheduler.StraightLineRuns` and `Scheduler.StraightLineEffects`. |
| Scheduler.WideCounterJumpToZeroIdles | src/core/hardware/operations.hpp:16 | Under a non-wrapping `size_t` counter, a jump to 0 plus the pulse's increment gives 65536, past the end of any program of at most 65536 ops. Only the `unsigned short` increment brings it back to 0. |
| Scheduler.TickAdvances | src/core/hardware/operations.hpp:27 | A pulse on a non-jump op inside a program shorter than 2^16 is that op followed by counter + 1. |
| Scheduler.JumpLandsOnTarget | src/core/hardware/op_def.cpp:115-124 | One pulse on a Jmp leaves the counter on its target, target 0 included, with no other change. |
| Scheduler.JnzPulse | src/core/hardware/op_def.cpp:127-140 | One pulse on a Jnz lands on its target when the flag is clear. When the flag is set it is a pulse on NoOp. |
| Scheduler.HaltedStaysHalted | src/core/hardware/operations.hpp:27 | Once the counter is past the program, no number of pulses changes the state, and every pulse is silent. |
| Scheduler.SelfJumpLoops | src/core/hardware/op_def.cpp:115-124 | A Jmp to its own index holds the unit there forever, silently. |
| Scheduler.ExecRangeIgnoresCounter | src/core/hardware/op_def.cpp:17-112 | Without jumps, the registers, flag and effects of running a stretch of ops do not depend on the counter. |
| Scheduler.StraightLineRuns | src/core/hardware/operations.hpp:27 | A jump-free program pulsed n times ends with the counter at min(start + n, length). Its registers and flag are those of running the ops in that range in order. |
| Scheduler.StraightLineEffects | src/core/hardware/operations.hpp:27 | While ops remain, a jump-free program's effects, pulse by pulse, are those of its ops in order. |
| TileMap.Fresh | src/core/entity/map.hpp:25 | A new map has width * height tiles, all empty. |
| TileMap.Index | src/core/entity/map.hpp:117-118 | The row-major index x + y * width of an on-grid tile lies inside the tile list. |
| TileMap.IndexInjective | src/core/entity/map.hpp:117-118 | Distinct on-grid coordinates never share a tile index. |
| TileMap.Update | src/core/entity/map.hpp:117-119 | Writing one tile changes that tile only. The grid keeps its shape. |
| TileMap.CanPlace | src/core/entity/map.hpp:33-35 | A position that can be placed on is on the grid (the bounds-checked test, see Findings). |
| TileMap.CanPlaceAsWritten | src/core/entity/map.hpp:33-35 | The source's unchecked test reads the raw offset x + y * width. On the grid it means "no entity on the tile and the builder permits". `TileMap.AsWrittenAliasesNextRow` shows what it reads off the grid. |
| TileMap.CanPlaceAgreesOnGrid | src/core/entity/map.hpp:33-35 | On the grid, a position can be placed on iff its tile has no entity and the builder permits it. There the test agrees with the unchecked one. |
| TileMap.AsWrittenAliasesNextRow | src/core/entity/map.hpp:33-35 | The unchecked test asked about (width, 0) reads tile (0, 1). The bounds-checked test answers false. |
| TileMap.AddEntity | src/core/entity/map.hpp:37-40 | The entity's own tile records the entity and keeps its other fields. Every other tile is unchanged. |
| TileMap.RemoveEntity | src/core/entity/map.hpp:42-45 | The tile at the entity's own position is emptied of any entity, whichever one it held, and keeps its other fields. Every other tile is unchanged. |
| TileMap.AddThenRemove | src/core/entity/map.hpp:37-45 | Adding an entity registers it on its tile and changes nothing else. Removing it clears that tile, and restores the grid when the tile was empty before. |
| TileMap.MoveEntity | src/core/entity/map.hpp:47-61 | The move happens iff the destination can be placed on. A failed move changes nothing. A successful one updates the position, appends one move callback with old and new coordinates, and clears the old tile. It sets the new tile when the delta is non-zero and touches no other tile and no non-entity field. |
| TileMap.MoveKeepsSingleTile | src/core/entity/map.hpp:47-61 | If an entity is registered on exactly its own tile, a move, successful or not, keeps it registered on exactly its (new) tile. |
| TileMap.StandStillFails | src/core/entity/map.hpp:47-61 | A (0, 0) move of a registered entity always fails, because its own tile is occupied. |
| TileMap.AddBuilding | src/core/entity/map.hpp:63-74 | Every tile in the footprint gets the building, and no other tile or field changes. `get_building` then returns it exactly for entities standing in the footprint. |
| TileMap.GetBuilding | src/core/entity/map.hpp:71-74 | No contract of its own: the building on the entity's tile. `TileMap.AddBuilding` states what it returns after a building is added. |
| TileMap.Explore | src/core/entity/map.hpp:76-81 | A tile becomes explored iff it was explored or is in view. A tile out of view leaves the grid unchanged. No explored bit is cleared and no other field or tile changes. |
| TileMap.UpdateFov | src/core/entity/map.hpp:87-93 | Every tile's view bit becomes the builder's answer. Entities, buildings and explored bits are untouched. |
| TileMap.InFov | src/core/entity/map.hpp:95-98 | No contract of its own: the tile's view bit. `TileMap.UpdateFov` and `TileMap.Explore` state how it is set and used. |
| TileMap.IsExplored | src/core/entity/map.hpp:100-103 | No contract of its own: the tile's explored bit. `TileMap.Explore` states how it changes. |
| TileMap.IsWall | src/core/entity/map.hpp:105-107 | No contract of its own: the builder's answer, independent of the tiles. |
| TileMap.Click | src/core/entity/map.hpp:109-114 | A click is handled iff the tile holds an entity. It then appends exactly one click callback for that entity at that position, and otherwise leaves the log alone. |
| TileMap.ClickFollowsMove | src/core/entity/map.hpp:109-114 | After a successful non-zero move, a click on the new position reaches the moved entity and a click on the old position reaches nobody. |
| Unit.Perform | src/core/hardware/op_def.cpp:30-46 | An op's effect on a unit's world: registers as `Exec` gives them; only Move touches map, position and callbacks; only Dig records a dig request; the entity stays on the grid. |
| Unit.MoveIsMapMove | src/core/hardware/op_def.cpp:30-34 | A Move op is exactly `move_entity` with its deltas: blocked means no change, free means the position moves by the deltas and the move is logged. |
| Unit.PerformKeepsRegistration | src/core/hardware/op_def.cpp:25-46 | No op can leave the controlled entity registered on a tile other than its own, or on two tiles. |
| Unit.Pulse | src/core/hardware/operations.hpp:27 | A pulse in the world moves the CPU exactly as `Scheduler.Tick` does and keeps the entity on the grid. |
| Unit.RunWorld | src/core/hardware/operations.hpp:27 | n pulses of the unit in its world. The controlled entity stays on the grid throughout. |
| Unit.RunKeepsRegistration | src/core/hardware/compile_args.hpp:18-29 | However many pulses a program runs, the controlled entity stays registered on exactly its own tile. |
| Layout.EmptyBox | src/render.cpp:215 | The default box is placed on the zero rectangle it was created for. |
| Layout.SizedBox | src/render.cpp:216-217 | A box built from a size sits at the origin with that size, on the rectangle it was created for. |
| Layout.PlacedBox | src/render.cpp:218-219 | A box built from a rectangle is placed on exactly that rectangle, which is also its parent rectangle. |
| Layout.AbsPos | src/render.cpp:227-230 | Each absolute coordinate is the box origin plus the relative one whenever that sum fits in `long`. |
| Layout.AbsPosTranslates | src/render.cpp:227-230 | Within the `long` range, the absolute position is a translation by the box origin: (0, 0) maps to the origin and differences are preserved. |
| Layout.Split | src/render.cpp:235-253 | For any percentage, even when the arithmetic wraps: both children are fresh boxes on their own rectangles, the first starts at the parent's origin, and the axis not cut keeps the parent's position and size. |
| Layout.FirstPartFits | src/render.cpp:239 | Without wrap-around, the first part of a split is len * p / 100 and is at most len for p <= 100. |
| Layout.SplitHorizontalSizes | src/render.cpp:237-242 | Without wrap-around, a horizontal split gives the first child h * p / 100 rows and the second child the rest, directly below. Both keep x and width and fill the rectangle they were created for. |
| Layout.SplitVerticalSizes | src/render.cpp:244-249 | Without wrap-around, a vertical split gives the first child w * p / 100 columns and the second child the rest, directly to the right. Both keep y and height and fill the rectangle they were created for. |
| Layout.SplitTiles | src/render.cpp:235-253 | Every cell of the parent lies in exactly one child of a split, and every cell of a child lies in the parent. |
| Layout.SecondChildOffset | src/render.cpp:227-242 | A position in the second child of a horizontal split is the parent position shifted down by the first child's height. |
| Layout.Center | src/render.cpp:281-287 | Centring keeps the parent rectangle, and a requested size that fits in `long` becomes the new size. |
| Layout.CenterInside | src/render.cpp:281-287 | A size that fits the parent is placed inside it with that size, and its two margins on each axis differ by at most one cell. |
| Layout.CenterForgetsPlacement | src/render.cpp:281-287 | Centring depends only on the parent rectangle, so re-centring discards an earlier centring. |
| Layout.CenterFullSize | src/render.cpp:281-287 | Centring a freshly built box at its parent's size leaves it unchanged. |
| AsciiBox.MakeBox | src/render.cpp:13-14 | Non-negative arguments are stored unchanged. A negative x is stored as x + 2^64. |
| AsciiBox.MakeBoxReadsBack | src/render.cpp:13-14 | Every stored `unsigned long` field, read back as a signed value, is the argument it was built from, negative ones included. |
| AsciiBox.CheckInputTextShape | src/render.cpp:23-30 | The check passes iff the box is at least two rows high with two more rows than text lines, and each line is two characters narrower than the box (the width is only constrained when there is a line). |
| AsciiBox.PutChar | src/render.cpp:18-21 | One character is written at the box-relative cell. Every other cell and the canvas shape are unchanged. |
| AsciiBox.DrawCorners | src/render.cpp:36-41 | After the first step exactly the four corners hold '+'. |
| AsciiBox.DrawSides | src/render.cpp:42-45 | The side loop adds '|' on the left and right columns between the corners and nothing else. |
| AsciiBox.DrawEdges | src/render.cpp:46-49 | The edge loop adds '-' on the top and bottom rows between the corners and nothing else. |
| AsciiBox.DrawLine | src/render.cpp:52-54 | One pass of the inner text loop fills one interior row with its text line. |
| AsciiBox.DrawText | src/render.cpp:51-55 | The text loop fills every interior cell with the character of its line. |
| AsciiBox.PaintedPicture | src/render.cpp:32-56 | A fully drawn box shows '+', '|' and '-' on its frame and the text inside, and the canvas outside the box is unchanged. |
| AsciiBox.Populate | src/render.cpp:32-56 | `populate` leaves '+' at the corners, '|' on the sides, '-' on the top and bottom edges, and text line r character k at interior cell (k + 1, r + 1). It writes nothing outside the box and keeps the canvas shape. |

## Left out

- Rendering through libtcod (`tcodRenderer`), `get_rect`, the `BoxManager` layout and every other part of `render.cpp` outside `Box` and the `LayoutBox` members above: drawing, not logic.
- The `LayoutBox` destructor and the ownership of its children: memory management. `Layout.Split` returns the two children as values.
- The assembler, parser and label resolution that build programs, and the `Operations` member bodies: not part of this model. Programs are given as sequences of `Instr`, and jump targets as resolved indices.
- `handle_dig` and `Inventory`: not part of this model. A Dig op is recorded as a request with its deltas.
- Map readers (`RandomMapReader`, `FileMapReader`), `compute_fov` and the `MapBuilder` internals: they are the builder's business. The builder's queries are arbitrary functions here.
- Logging (`SPDLOG_*`): no behaviour.
- `engine.hpp` and `arg_parse.hpp`: the game loop, input and command-line handling, outside the modelled core.
- Ops.Exec: registers are 16-bit words. The source's `cpu_word_size` width is not part of this model.
- Scheduler.Tick: the pulse driver is an assumption (see above), not a model of `handleClockPulse`'s body.
- Scheduler.JumpLandsOnTarget: "target 0 included" holds only under the `unsigned short` increment assumed above. Under the `size_t op_idx` that `Operations` declares (operations.hpp:16), a jump to 0 lands on 65536 and the unit idles (`Scheduler.WideCounterJumpToZeroIdles`).
- Scheduler.StraightLineEffects: states the effects only while ops remain. Past the end of the program, `Scheduler.HaltedStaysHalted` says every pulse is silent.
- TileMap.Explore, TileMap.Click, TileMap.AddBuilding, TileMap.MoveEntity: these require on-grid coordinates. The source indexes the raw row-major offset, so an off-grid coordinate whose offset is in range silently reaches another tile (see Findings), and one whose offset is out of range is undefined behaviour.
- TileMap.MoveEntity: uses the bounds-checked placement test, not the source's unchecked one (see Findings).
- Layout.AbsPosTranslates: stated only within the `long` range. Outside it the source's addition is undefined behaviour, and `Layout.AbsPos` wraps.
- Layout.SplitHorizontalSizes, Layout.SplitVerticalSizes, Layout.SplitTiles: stated for a non-negative length whose product with 100 fits in `unsigned long`, a percentage of at most 100, and an end position within `long`. Outside these conditions `Layout.Split` computes the wrapped values. Its own contract then states only the origin of the first child, the axis not cut, and that both children fill their rectangles.
- Layout.CenterInside: stated for a size that fits the parent. A larger size wraps in `unsigned long`, and `Layout.Center` computes that wrapped position.
- AsciiBox.Populate: requires the text to pass `checkInputText` (the source's `assert`; with assertions compiled out the source draws from a text of the wrong shape), a box at least one column wide (with a width of 0 and no text, the corner writes at `w - 1` land at column x - 1, one column left of the box, or at column 2^64 - 1 when x = 0, and the '-' loop, bounded by `w - 1` = 2^64 - 1, runs off the row), and a box that lies inside the canvas (the source does not check `std::string` indices).

## Findings

| source | as written | input that shows it | evidently intended | confidence | as-written member | corrected member |
|---|---|---|---|---|---|---|
| src/core/entity/map.hpp:33-35 | `can_place` reads the tile at offset x + y * width before any bounds check, so a position past the right edge reads the first tile of the next row, and a position below the grid reads past the tile list. | On a map 3 wide and 2 high, `can_place(3, 0)` answers from tile (0, 1). With that tile free and the builder allowing (3, 0), `move_entity` moves a unit at (2, 0) by dx = 1 off the grid. | A position off the grid can never be placed on. | not executed | TileMap.AsWrittenAliasesNextRow | TileMap.CanPlace |
