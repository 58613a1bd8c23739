# fluid_simulation — a Dafny model of the simulation core

This project models the core of `fluid_simulation`. The program advects a 2D
density field through a divergence-free flow field and saves one greyscale
frame per step group. The model covers:

- **Advection** (`simulate`): one upwind step over a row-major `w * h` grid.
  Interior cells are written into a scratch buffer, and the buffers are then
  swapped. This is module `Advection`, over arrays.
- **Flow field** (`generate_flow_field`): a noise grid, the rotated central
  difference in interior cells, a running maximum of the vector lengths, and
  a division of every vector by it. This is module `FlowField`, over arrays.
- **Initial density** (`load_mass_distribution`): the size check and the
  centring of the luma grid in a zero-filled target grid with floor-half
  padding, storing `luma / 255`. This is module `MassDistr`.
- **Configuration check** (`Configuration::check`): the ordered chain of
  early returns. This is module `Config`.
- **Driver** (`run`): the resolution table, the buffer allocation and the
  four-mode frame/sub-step schedule with its noise time offsets. This is
  module `Driver`. The driver is modelled by the trace of kernel calls it
  makes (`Event`). `Evolve` and `RunDensityInUnitRange` connect the kernels
  of a whole run.
- **Shared pieces:** row-major index arithmetic is in `Grid`; the `Vec2D`
  value and its length are in `Vectors`; `Option`/`Result`/`Outcome` are in
  `Wrappers`.

Modelling conventions:

- `f32` and `f64` values are `real`.
- The noise function (`SuperSimplex`) is a function parameter
  `noise: (real, real, real) -> real`.
- `Vec2D::length` is a function parameter `len`. `Vectors.IsLength` pins it
  down as `sqrt(x * x + y * y)`: it is non-negative and its square is
  `x * x + y * y`. The laws the rest of the model uses (zero length exactly at
  the zero vector, scaling with a positive divisor, each component bounded by
  the length) are proved from that.
- The filesystem answers (`is_file`, `is_dir`) are the `Config.FileSystem`
  input.
- The decoded image, or its absence, is an `Option<LumaImage>` input.
- The sampled random offsets are an input.
- Whether each frame is saved is an input (`saveSucceeds`).
- The parallel row loops (rayon) are modelled as sequential loops.
- `src/main.rs` is an older copy of the whole program. Every operation is
  modelled once, and the table cites both copies. The one behavioural
  difference is the dynamic z step: 0.3 in `sim_ctrl.rs` and 1 in `main.rs`.
  It is the `DriverCopy` parameter of the schedule.

`check` does not test `frames_number`. With 0 frames a dynamic run makes no
kernel call and a static run makes only the initial generation.

## Model

| member | source | states |
|---|---|---|
| Advection.AdvectAt | src/simulate.rs:21-35 | For interior cell (x, y), the pass stores the old density minus half the flow times the upwind gradient. The x difference uses the right neighbour when `F.x < 0` and the left one otherwise, so `F.x == 0` uses the left. The y difference uses rows y+1 / y-1 in the same way. The neighbour indices are in range. |
| Advection.AdvectInterior | src/simulate.rs:12-21 | Every interior cell, by flat index, holds the upwind update. Its neighbours lie inside the grid. |
| Advection.AdvectBoundary | src/simulate.rs:12-21 | Every non-interior cell keeps the scratch buffer's value. |
| Advection.AdvectBoundaryAt | src/simulate.rs:12-21 | Cells of row 0, row h-1, column 0 and column w-1 are never written: they keep the scratch buffer's old value. |
| Advection.AdvectZeroFlow | src/simulate.rs:34-35 | An interior cell with flow (0, 0) keeps its old density. |
| Advection.AdvectFlat | src/simulate.rs:22-35 | An interior cell whose four neighbours have its density keeps it, whatever the flow. |
| Advection.AdvectWithin | src/simulate.rs:21-35 | Maximum principle: if the density and the scratch buffer lie in [lo, hi] and every flow component lies in [-1, 1], the result lies in [lo, hi]. |
| Advection.UpwindWithin | src/simulate.rs:22-35 | The update of one cell is a convex combination of its stencil when the flow components lie in [-1, 1]. |
| Advection.Simulate | src/simulate.rs:5-63 | After the interior pass into `buffer` and the swap, the returned density is the array that was the buffer. It holds `Advect` of the old density, scratch values and flow. The returned buffer is the old density array, unchanged. `flow` is only read and both lengths stay `w * h`. |
| Advection.AdvectRow | src/simulate.rs:21-36 | The column loop of one interior row writes exactly that row's cells of the pass. Earlier rows are kept and later rows are untouched. |
| Advection.PassComplete | src/simulate.rs:12-17 | Once all rows above the last agree with the pass and the last row is untouched, the buffer equals the whole pass. |
| FlowField.NoiseGridAt | src/flow_field.rs:19-30 | Every cell (x, y), boundary included, holds `noise((x - ox) / s, (y - oy) / s, oz / s)`. |
| FlowField.FillNoise | src/flow_field.rs:19-30 | The nested loop fills the whole noise buffer with `NoiseGrid`. |
| FlowField.StencilledAt | src/flow_field.rs:38-43 | Interior cell (x, y) holds `(N[y+1,x] - N[y-1,x], -(N[y,x+1] - N[y,x-1]))`. |
| FlowField.StencilledBoundary | src/flow_field.rs:32-38 | Boundary vectors are not touched by the stencil. |
| FlowField.ApplyStencil | src/flow_field.rs:32-45 | The row loop leaves the flow field equal to `Stencilled` of the noise buffer and the previous field. |
| FlowField.StencilRow | src/flow_field.rs:38-44 | One interior row's column loop writes that row's stencil values. Earlier rows are kept and later rows are untouched. |
| FlowField.MaxLengthIsMaximum | src/flow_field.rs:17-49 | The running maximum (line 48) seeded with `f32::MIN` (line 17) is at least that seed. It bounds every cell's length, boundary included. It is either the seed or some cell's length. |
| FlowField.MaxLengthAttained | src/flow_field.rs:47-49 | On a non-empty grid the maximum is non-negative and attained by some cell. |
| FlowField.MaxScan | src/flow_field.rs:47-49 | The scan loop returns `MaxLength` of the whole field. |
| FlowField.Normalise | src/flow_field.rs:51-54 | Every vector is divided by the same scalar `m`. |
| FlowField.NormalisedUniform | src/flow_field.rs:51-54 | Each output times `m` is its input, and the order of lengths between any two cells is preserved in both directions. |
| FlowField.NormalisedUnit | src/flow_field.rs:47-54 | With a positive maximum, every output length is at most 1 and some cell has length exactly 1. |
| FlowField.BoundaryStaysZero | src/flow_field.rs:32-54 | A zero boundary stays (0, 0) after the stencil (lines 32-38) and the division (lines 51-54). |
| FlowField.GenerateFlowField | src/flow_field.rs:6-55 | Afterwards, the noise buffer holds `NoiseGrid`. The flow field is the stencilled field divided by its maximum length. |
| Vectors.Divided | src/flow_field.rs:52-53 | Each component of the result times `m` is the input component. |
| Vectors.LengthOfZero | src/utility.rs:64-66 | Proved of `sqrt(x * x + y * y)`: the length of (0, 0) is 0, and the length of any other vector is positive. |
| Vectors.ComponentsWithinLength | src/utility.rs:64-66 | Proved of `sqrt(x * x + y * y)`: each component lies between minus the length and the length. |
| Vectors.ComponentsOfShortVector | src/utility.rs:64-66 | A vector of length at most 1 has both components in [-1, 1]. |
| Vectors.LengthOfDivided | src/utility.rs:64-66 | Proved of `sqrt(x * x + y * y)`: dividing both components by `m > 0`, as lines 51-54 of src/flow_field.rs do, divides the length by `m`. |
| MassDistr.Shade | src/mass_distr.rs:21 | A stored value is `luma / 255`, so it lies in [0, 1]. |
| MassDistr.Padding | src/mass_distr.rs:15-16 | The padding is the floor of half the spare room: twice it is within 1 of the room, and the image still fits after it. |
| MassDistr.PixelInBounds | src/mass_distr.rs:18-20 | Pixel (x, y) lands at `(py + y) * tw + px + x`, which is inside the target grid. |
| MassDistr.PixelsDistinct | src/mass_distr.rs:18-20 | Distinct pixels land on distinct cells. |
| MassDistr.PlacedAt | src/mass_distr.rs:18-21 | The cell of pixel (x, y) holds its luma divided by 255. |
| MassDistr.PlacedOutside | src/mass_distr.rs:14-21 | A non-zero cell is the cell of some pixel: every cell outside the placed rectangle is 0. |
| MassDistr.PlacedRange | src/mass_distr.rs:14-21 | Every cell of the placed grid lies in [0, 1]. |
| MassDistr.LoadMassDistribution | src/mass_distr.rs:4-37 | A missing or undecodable file gives the open error. An image wider or taller than the target gives the size error. Otherwise the result is the placed grid of `tw * th` cells. |
| MassDistr.Place | src/mass_distr.rs:14-22 | The zero-filled buffer written pixel by pixel equals `Placed`. |
| MassDistr.PlaceRow | src/mass_distr.rs:18-21 | Writing one pixel row extends the finished prefix by a full target row. The cells after it stay 0. |
| Config.Check | src/utility.rs:18-54 | An accepted configuration has a positive simulation factor, a scale of at least 1.0 and a supported resolution. |
| Config.CheckReportsFirstFailure | src/utility.rs:18-51 | `check` fails with error `e` exactly when some check is the first one, in source order, to fail and `e` is that check's error. |
| Config.CheckAccepts | src/utility.rs:53 | `check` returns Ok exactly when every check holds. |
| Config.FailingIndex | src/utility.rs:19-51 | A failing configuration has a first failing check, and its error is the one reported. |
| Config.EmptyPathRejectedFirst | src/utility.rs:19-21 | An empty density path is rejected before any existence check, whatever the filesystem says. |
| Config.ZeroFactorRejected | src/utility.rs:39-41 | A simulation factor of 0 is always rejected, and never for a later reason. |
| Config.ScaleBound | src/utility.rs:42-44 | Once the earlier checks pass, the scale error happens exactly when the scale is below 1.0, so 1.0 is accepted. |
| Config.ResolutionAccepted | src/utility.rs:46-53 | Once the earlier checks pass, the configuration is accepted exactly when the resolution is in {480, 720, 1080, 1440, 2160}, and otherwise rejected for it. |
| Driver.ResolutionAsWritten | src/sim_ctrl.rs:69-93 | The table as written has an entry exactly for the supported resolutions. |
| Driver.ResolutionAsWrittenHeight | src/sim_ctrl.rs:70-73 | As written, 480 maps to 640×460: its height is not 480, while every other entry matches the corrected table and is as tall as its code. |
| Driver.Resolution | src/sim_ctrl.rs:70-73 | The corrected half of the 480 finding: the table with 480 → 640×480 and every other entry as written has an entry exactly for the supported resolutions. |
| Driver.ResolutionHeights | src/sim_ctrl.rs:69-89 | Every corrected entry is `code` lines tall and at least 2×2, with a 4:3 (480) or 16:9 aspect ratio. |
| Driver.CheckedResolutionInTable | src/sim_ctrl.rs:41-92 | A configuration that passes `check` (lines 41-46) always finds a table entry, so the `unreachable!` arm is never reached. |
| Driver.GenerationArguments | src/sim_ctrl.rs:195-204 | Every generation of a run passes the configured scale. Without randomisation its x and y offsets are 0, and its z offset is `k * zStep` at the `k`-th generation of a dynamic run (lines 195-204) and 0 for a static one (lines 228-237). With randomisation the sampled offsets (lines 113-119) take the place of the zeros. |
| Driver.RunGridAsWritten | src/sim_ctrl.rs:70-73 | The run's grid at target resolution 480 is 640×460, so an image 461 to 480 lines tall is rejected although it fits the corrected 480-line grid. Every other supported resolution gives a grid `code` lines tall. |
| Driver.AllocateBuffers | src/sim_ctrl.rs:102-104 | The scratch density buffer, the flow field and the noise buffer are fresh, `w * h` long and all zero. |
| Driver.Run | src/sim_ctrl.rs:41-266 | A failed check stops the run with no call and the check's error. A failed load stops it with the load error. The run succeeds exactly when the check passes, the image loads and fits the grid of the table as written (640×460 at 480), and every save succeeds; its trace is then the whole `Schedule`. A failed save of frame f is the first failed save: the trace ends with it and the run stops. |
| Driver.RunFrames | src/sim_ctrl.rs:168-188 | The frame loop yields `Frames` of all frames when every save succeeds. Otherwise it stops after the first frame whose save fails and returns that frame. |
| Driver.RunSteps | src/sim_ctrl.rs:194-208 | The sub-step loop yields `FrameSteps` of the frame. |
| Driver.DynamicStepsAlternate | src/sim_ctrl.rs:122-135 | A dynamic frame alternates generate then simulate. The generation of sub-step `k = frame * factor + step` has z offset `base.z + k * zStep`. |
| Driver.StaticStepsSimulate | src/sim_ctrl.rs:168-171 | A static frame makes `simulation_factor` simulations and nothing else. |
| Driver.FrameSave | src/sim_ctrl.rs:173-185 | Each frame makes exactly one save, of that frame, with midpoint 170 and slope 0.03, after its sub-steps. |
| Driver.FrameSimulations | src/sim_ctrl.rs:169-171 | Each frame makes `simulation_factor` simulations. |
| Driver.FrameGenerations | src/sim_ctrl.rs:195-205 | The generations of a frame are those of its sub-steps (dynamic) or none (static). |
| Driver.FramesSimulations | src/sim_ctrl.rs:168-171 | `n` frames make `n * simulation_factor` simulations. |
| Driver.FramesSaves | src/sim_ctrl.rs:168-188 | `n` frames make `n` saves, one per frame in frame order. |
| Driver.FramesGenerations | src/sim_ctrl.rs:121-135 | Over `n` dynamic frames, there is one generation per sub-step `k` at z offset `base.z + k * zStep`; static frames have none. |
| Driver.ScheduleSimulations | src/sim_ctrl.rs:156-171 | A whole run makes `frames_number * simulation_factor` simulations. |
| Driver.ScheduleSaves | src/sim_ctrl.rs:138-150 | A whole run saves every frame once, in order, with the fixed tone curve. |
| Driver.ScheduleGenerations | src/sim_ctrl.rs:156-170 | A static run has one generation, with the base offsets, before everything else. A dynamic run has one generation per sub-step, with the z formula. |
| Driver.CopiesDiffer | src/main.rs:405 | Static schedules of the two copies coincide. In a dynamic run with two or more sub-steps, the second generation is at `z + 0.3` in `sim_ctrl.rs` and at `z + 1` in `main.rs` (lines 405 and 477 there). |
| Driver.StaticIgnoresZStep | src/main.rs:429-452 | A static schedule does not depend on the z step. |
| Driver.Evolve | src/sim_ctrl.rs:168-171 | A sequence of simulation steps (advection pass, then swap) keeps both buffers `w * h` long. |
| Driver.EvolveWithin | src/sim_ctrl.rs:168-171 | Any number of steps with flow components in [-1, 1] keeps the density and the scratch buffer in [lo, hi]. |
| Driver.NormalisedUnitBounded | src/flow_field.rs:47-54 | A normalised flow field has both components of every vector in [-1, 1]. |
| Driver.RunDensityInUnitRange | src/sim_ctrl.rs:95-104 | Starting from the loaded density and a zero scratch buffer, with normalised flow fields, every density of a run lies in [0, 1]. |

Both copies of each operation are covered by the members above:

- `check` is also at src/main.rs:29-65.
- `load_mass_distribution` is also at src/main.rs:80-113, with the size check and placement at 89-97 and 101-107.
- `generate_flow_field` is also at src/main.rs:115-163, with the stencil and normalisation at 147-163.
- `simulate` is also at src/main.rs:194-253, with the upwind rule at 210-224 and the swap at 252.
- `length` is also at src/main.rs:74-78.
- The resolution table is also at src/main.rs:342-366.

## Left out

- The SuperSimplex noise evaluation is a foreign library. The noise is a function parameter and nothing is assumed about it.
- The square root in `Vec2D::length` is not computed. `len` is any function satisfying `Vectors.IsLength`, which holds of `sqrt(x * x + y * y)` and of nothing else.
- IEEE `f32`/`f64` behaviour is not modelled: rounding, the `as f32` casts, NaN and infinities. Values are exact reals.
- FlowField.GenerateFlowField: requires a positive maximum length. The source divides unguarded, and a field with no non-zero vector (a grid with no interior, or flat noise) gives NaN or infinities there. `MaxLengthIsMaximum` still describes the `f32::MIN`-seeded scan on such a field.
- `save_frame` (src/save_frame.rs) is not part of this model: its tone curve uses `exp` and a cast to `u8`, and the rest is PNG encoding and file I/O. A save is the `SaveFrame` event with its frame number, midpoint and slope. Its success is an input.
- Opening and decoding the density image and `to_luma` are not modelled. The decoded luma grid, or its absence, is an input, and every open or decode failure is one error.
- The filesystem checks `is_file` and `is_dir` are inputs.
- Reading and parsing the JSON configuration file, and its two error paths, are left out, as are the progress bar, console output and the ASCII art banner.
- `thread_rng` sampling of the offsets is left out. The sampled offsets are an input, and their range [-5, 5) is not constrained.
- The output file name `"{dir}/frame_{n}.png"` is not modelled. A save is identified by its frame number.
- Rayon parallelism is not modelled. The row loops run in sequence; the rows write disjoint cells, as the commented-out sequential versions in the source show.
- Driver.Run: records the kernel calls instead of running the kernels on the buffers. What the kernels do is stated by `Advection.Simulate`, `FlowField.GenerateFlowField` and `MassDistr.LoadMassDistribution`. What a run of them does to the density is `Driver.Evolve` / `Driver.RunDensityInUnitRange`.
- Integer widths (`usize`, `u32`) are not modelled. Indices are unbounded naturals, and no grid of the table comes near an overflow.

## Findings

| source | as written | input that shows it | evidently intended | confidence | as-written member | corrected member |
|---|---|---|---|---|---|---|
| src/sim_ctrl.rs:70-73 | target resolution 480 selects a 640×460 grid (the same at lines 343-346 of src/main.rs) | `target_resolution = 480` with a 640×470 image: the size check rejects it, while every other entry is as tall as its code (720, 1080, 1440, 2160) | 640×480, the 4:3 frame of 480 lines | not executed; low (460 may be deliberate; nothing in the source explains it either way) | Driver.RunGridAsWritten | Driver.ResolutionHeights |
