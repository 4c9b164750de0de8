# Verification of the GPPCU host software, its demo application and two HAL drivers

This project models the parts of the repository in which an error would go unnoticed longest, and proves
what they are for.

- **The lane-parallelising back end** (`gppcu.c`, `gppcu.h`). The host rewrites a program over ten virtual
  registers into one over thirty-two, three renamed copies of every instruction, and lays the task records
  out over threads, device cycles and lanes. `Isa`, `Machine`, `LaneSimulation`, `DeviceRun`, `TaskLayout`,
  `Gppcu` and `EndToEnd` prove that writing any records, running the rewritten program for the programmed
  number of cycles and reading back gives the one-task program mapped over the records. `Pipeline` proves why
  the emitter pushes bubbles; `Reach` and `Capacity` prove exactly which batches the device computes right.
- **The vertex shader and the application around it** (`app.c`, `main.c`). `Shader`, `App` and `Frames` prove what
  the uploaded program leaves in every record, and that in every frame each downloaded point is its own vertex
  under that frame's constants. `LineRaster` proves which pixels the integer line walk and the triangle loop
  light. `TriangleSoup` and `Mesh` prove what in-place subdivision keeps and that the box is a box. `Floats` says
  which numbers the application's constants stand for.
- **The fast JTAG UART driver** (`JtagUart`): two rings shared without locks with the interrupt routine.
- **The alarm list** (`AlarmTimer`): a wrapping 32-bit tick counter against an unbounded scheduler.
- **The 4 by 4 matrix kernel** (`Matrix`) and **the instruction disassembler** (`InstrText`).

The machine model follows the hardware description beside the software (`project/resource/HDL/GPPCU`):
operand selection, condition codes, flags, write-back and the queue that restarts the program once per device
cycle. It decodes by its own numbers, to which the assembler's names are proved to fit. Floating point operations are parameters of the machine; nothing is assumed about them unless a lemma
says so.

Four results say that code or hardware does not do what its comments, names or checks suggest, and exactly when it does:

- `AlarmTimer.StartedAlarmKeepsSchedule`: an alarm keeps its schedule for ever if and only if it is not
  started with the longest delay (2^32 - 1) at a count other than the last one; `FiresAtOnce` shows what
  happens otherwise.
- `Machine.SignedConditions`: after a subtraction the condition codes for less and greater compare with signs if and
  only if the difference fits 32 bits, and the one for greater holds for equal operands too; `WrongComparison` is a
  pair of operands that fails.
- `LineRaster.EndsExactlyIfFits`: the line loop ends with its 32-bit error variable intact if and only if the
  coordinate differences survive their conversion to 16 bits, a width below 32768 and a height of at most 32768.
  Of the other lines, by `OverflowsExactly`, the frozen ones loop in place for ever and all the rest overflow the
  variable; `WideLineOverflows` and `LargeLineStays` are examples.
- `Capacity.RunsRightExactly`: a batch that passes the host's check on the number of tasks is computed right by
  every program if and only if the words that the last lane of the last device cycle can reach, at most 128 from
  its start, lie inside the memory; the check forgets that this lane may be padding. `PaddingLaneWraps` is a batch
  that passes the check and goes wrong, `OverlapIsHarmless` one whose padding does not fit and that is right.

`dafny verify dfyconfig.toml` checks the project.

## Model

| member | source | states |
|---|---|---|
| Isa.DecodeEncode | project/software/hello/src/gppcu.h:167-175 | extracting the seven fields of an assembled word gives them back, whatever their values |
| Isa.EncodeDecode | project/software/hello/src/gppcu.h:167-169 | every 32-bit word is the assembly of its own fields |
| Isa.Immediates | project/software/hello/src/gppcu.h:171-175 | the 12 and 17 bit immediates of formats B and C read back as the number modulo their width, negative ones included |
| Isa.LaneWordRenames | project/software/hello/src/gppcu.c:361-375 | adding the lane's multiples of ten to the packed word is renaming exactly the used register fields: no carry crosses a field |
| Isa.LaneWordDecodes | project/software/hello/src/gppcu.c:361-375 | the copy pushed for a lane decodes to the renamed instruction, all other fields untouched |
| Machine.TablesCoverDecoder | project/software/hello/src/gppcu.c:145-243 | for every opcode the emitter's three tables name exactly the register fields that the decoder reads and writes, and besides them RA of LDL and of FNEG |
| Machine.NamedFloats | project/software/hello/src/gppcu.h:22-48 | the assembler's names of the floating point operations select those operations of the machine, which decodes by its own numbers |
| Machine.NamedSums | project/software/hello/src/gppcu.h:22-48 | so do the names of additions and subtractions, modulo 2^32 and with the carry where they have one |
| Machine.NamedBits | project/software/hello/src/gppcu.h:22-48 | so do the names of the three logic operations |
| Machine.NamedShifts | project/software/hello/src/gppcu.h:22-48 | so do the names of the shifts |
| Machine.NamedMoves | project/software/hello/src/gppcu.h:22-48 | so do the names of moves, load and store |
| Words.BitwiseMeans | project/resource/HDL/GPPCU/GPPCU_ALU.v:47-49 | each bit of a logic operation's result is set if both, at least one or exactly one of the bits at its place are |
| Machine.UnsignedConditions | project/resource/HDL/GPPCU/GPPCU_COND_VERIFIER.v:28-38 | after a subtraction the conditions on carry and zero compare the operands without signs |
| Machine.SignedConditions | project/resource/HDL/GPPCU/GPPCU_COND_VERIFIER.v:36-42 | the condition called less compares with signs, and the one called greater as at least, exactly if the difference fits 32 bits |
| Machine.WrongComparison | project/resource/HDL/GPPCU/GPPCU_ALU.v:34 | 2^31 - 1 counts as less than -1 |
| Machine.LongSum | project/resource/HDL/GPPCU/GPPCU_ALU.v:45 | two additions with carry add numbers of 64 bits |
| Machine.LongDifference | project/resource/HDL/GPPCU/GPPCU_ALU.v:46 | two subtractions with borrow subtract them |
| Machine.RunConcat | project/resource/HDL/GPPCU/GPPCU_TEST_QUEUE.v:154-178 | running two pieces of program one after the other is running their concatenation |
| LaneSimulation.SameOperands | project/resource/HDL/GPPCU/GPPCU_THREAD.v:67-87 | a renamed instruction reads in the big register file what the source instruction reads in its lane, for both operands |
| LaneSimulation.StepOwnLane | project/software/hello/src/gppcu.c:361-380 | one renamed instruction moves its own lane exactly as the source instruction moves a ten-register machine |
| LaneSimulation.StepFrame | project/software/hello/src/gppcu.c:361-380 | one renamed instruction leaves the other two lanes, their pivots and all memory outside the segments alone |
| LaneSimulation.BodySimulation | project/software/hello/src/gppcu.c:342-391 | the interleaved three-copy program leaves each lane's registers and segment as an independent run of the source program would, and nothing else changes |
| DeviceRun.PivotFields | project/software/hello/src/gppcu.c:317-333 | the three pivot instructions as they are really encoded: the third destination, 39, becomes register 7 with the status bit set |
| DeviceRun.PrologueSetsPivots | project/software/hello/src/gppcu.c:309-335 | the prologue puts the three lane base addresses into registers 9, 19 and 29, spoils register 7, clears the flags and writes no memory |
| DeviceRun.RegistersDoNotMatter | project/software/hello/src/gppcu.c:309-335 | a program that writes a register before reading it computes the same memory whatever the registers held |
| DeviceRun.LaneCycle | project/software/hello/src/gppcu.c:342-391 | after one pass a lane's segment is the task program's result on that segment alone |
| DeviceRun.OneCycle | project/software/hello/src/gppcu.c:296-392 | one pass of the whole emitted program puts the task program's result into the three segments of the cycle and changes no other cell |
| DeviceRun.EmitImplements | project/software/hello/src/gppcu.c:296-392 | the emitted code does so for every cycle and every state of the thread |
| DeviceRun.AllCycles | project/resource/HDL/GPPCU/GPPCU_TEST_QUEUE.v:154-178 | after any number of cycles every row below three times that number has been put through the task program exactly once, and the rest of memory is as before |
| Reach.ExtendsCycles | project/software/hello/src/gppcu.c:342-391 | any number of passes on a memory too short for the last rows go as on a longer one, as long as no lane reaches past the end |
| Reach.EmitServes | project/resource/HDL/GPPCU/GPPCU_TEST_QUEUE.v:154-178 | after the cycles every row that fits the memory has been put through the task program once, padding rows that hang over the end notwithstanding |
| TaskLayout.SpotIsDivision | project/software/hello/src/gppcu.c:435-453 | the two running counters equal remainder and quotient of the task number by the number of threads |
| TaskLayout.TaskAddressing | project/software/hello/src/gppcu.c:435-453 | task t lies in thread t mod T, device cycle (t/T)/3 and lane (t/T) mod 3, and the running offset is cycle x 3W + lane x W |
| TaskLayout.SameTask | project/software/hello/src/gppcu.c:435-453 | two tasks never share a place |
| TaskLayout.CyclesCover | project/software/hello/src/gppcu.c:394-404 | the programmed number of device cycles reaches every task |
| TaskLayout.CyclesAreCeiling | project/software/hello/src/gppcu.c:397-403 | the two nested roundings give the least number of cycles of 3T tasks that covers N tasks |
| TaskLayout.RecordWritten | project/software/hello/src/gppcu.c:421-454 | a write puts each task's words at the offset of its own record and leaves every other word of every record |
| TaskLayout.RecordRun | project/software/hello/src/gppcu.c:406-414 | a run applies the task program to every record of the cycles, once |
| TaskLayout.ReadCountIs | project/software/hello/src/gppcu.c:473-479 | task t is delivered if and only if it exists and its element ends strictly before the capacity |
| TaskLayout.ReadWithinCapacity | project/software/hello/src/gppcu.c:469-479 | a read never delivers more words than the capacity |
| TaskLayout.ReadAt | project/software/hello/src/gppcu.c:456-497 | the words delivered for a task are those of its own record |
| TaskLayout.RoundTrip | project/software/hello/src/gppcu.c:421-497 | reading the offset that was written gives the data back, in order |
| TaskLayout.WriteFrame | project/software/hello/src/gppcu.c:421-497 | a write leaves every disjoint range of offsets of every record as it was read before |
| TaskLayout.WriteRunRead | project/software/hello/src/gppcu.c:394-497 | write, run, read delivers the task program's words of each record, each task once, padding lanes disturbing none |
| Capacity.CheckedTasksFit | project/software/hello/src/gppcu.c:399-400 | the host's check makes the rows of the tasks themselves fit a thread's memory |
| Capacity.RunsRightExactly | project/software/hello/src/gppcu.c:394-404 | a batch that passes the host's check leaves every task's record as the task program does, for every program and all contents, if and only if the last lane's reach, 128 words or the record, ends inside the memory |
| Capacity.PaddingLaneWraps | project/software/hello/src/gppcu.c:400-403 | one task of 255 words on 24 threads of 512 words passes the check, and a one-instruction program comes out wrong |
| Capacity.OverlapIsHarmless | project/software/hello/src/gppcu.c:400-403 | with 171 words the padding rows do not fit either, yet every program comes out right |
| Pipeline.BodyDistance | project/software/hello/src/gppcu.c:361-390 | in the body an instruction that reads or overwrites a written register comes at least four slots later, five after floating point |
| Pipeline.HazardDistance | project/software/hello/src/gppcu.c:309-390 | in the whole emitted program such instructions are three slots apart in the prologue, four or five in the body |
| Pipeline.PipelineRefines | project/software/hello/src/gppcu.c:337-343 | slots whose conflicts are further apart than each result's own delay run on a stall-free pipeline, landing out of order, as they run in order |
| Pipeline.PassesRunOnPipeline | project/software/hello/src/gppcu.c:309-390 | any number of passes of any emitted program back to back, results in flight across the restart, equal the passes in order, for any delays up to three, four and five slots |
| Gppcu.Host.constructor | project/software/hello/src/gppcu.c:107-122 | an empty program buffer of the given capacity |
| Gppcu.Host.ClearInstr | project/software/hello/src/gppcu.c:416-419 | the program buffer is empty again |
| Gppcu.Host.PutInstr | project/software/hello/src/gppcu.h:185-189 | the word is appended to the program |
| Gppcu.Host.InitTaskParallel | project/software/hello/src/gppcu.c:394-404 | task count, cycle count and the two device settings for a batch |
| Gppcu.Host.ProgramAutofeedDeviceParallel | project/software/hello/src/gppcu.c:296-392 | the device holds prologue and three-lane body of the buffered program, whatever it held before |
| Gppcu.Host.PushPrologue | project/software/hello/src/gppcu.c:309-335 | the loop pushes the base load and the pivots, each behind two bubbles |
| Gppcu.Host.PushBody | project/software/hello/src/gppcu.c:342-391 | the loop over the program pushes the whole three-lane body in order |
| Gppcu.Host.PushGroup | project/software/hello/src/gppcu.c:349-390 | one instruction becomes its three copies and its bubbles, a bubble stays one bubble |
| Gppcu.Host.Write | project/software/hello/src/gppcu.c:421-454 | the nested loops with running offsets do what the record layout says |
| Gppcu.Host.Read | project/software/hello/src/gppcu.c:456-497 | the loop delivers the records' words task after task up to the capacity and leaves the rest of the buffer |
| Gppcu.Host.WriteConst | project/software/hello/src/gppcu.c:499-508 | the constants from an offset on are the given words, the others unchanged |
| EndToEnd.BatchRan | project/software/hello/src/gppcu.c:296-497 | on values: write, rewritten program, run, read equals the one-task program mapped over the records |
| EndToEnd.ProcessTasks | project/software/hello/src/gppcu.c:296-497 | the host's calls in sequence deliver that, and leave constants and the rest of the buffer alone |
| Shader.TermRun | project/software/hello/src/app.c:291-296 | the four instructions of a term add one product to the accumulator and keep vector, pivot and memory |
| Shader.ColumnRun | project/software/hello/src/app.c:289-298 | a column's instructions store the column's sum of products in the table |
| Shader.ShaderRun | project/software/hello/src/app.c:263-311 | the 87 instructions leave pivot, vertex, two screen coordinates, two untouched words and four products |
| Shader.ShaderResult | project/software/hello/src/app.c:244-314 | the same for the shader run alone on a task at any address, with any constants |
| Shader.NextFrame | project/software/hello/src/main.c:119-131 | shading a shaded record with new constants is shading the original one: frames do not accumulate |
| Shader.SumIsVec4Multiply | project/software/hello/src/mathc.c:1689-1700 | the accumulated sum equals the library's row vector times matrix bit for bit, if products commute and the first survives the addition to zero |
| Shader.ShaderIsTaskProgram | project/software/hello/src/app.c:244-314 | the shader obeys the rules under which the emitter preserves meaning |
| App.BuildProgram | project/software/hello/src/app.c:246-311 | the builder calls and their two loops leave exactly that program in the buffer |
| App.UploadProgram | project/software/hello/src/app.c:244-314 | the device holds its three-lane form |
| App.UploadVertices | project/software/hello/src/app.c:316-335 | every vertex is in words 1 to 3 of its own record |
| App.UploadObjectConstant | project/software/hello/src/app.c:337-370 | the matrix is in words 16 to 31, word 1 is the number 1.0, words 14 and 15 are half the values of width and height wherever the host's multiplication is exact, and no other constant changes |
| Floats.HalfAndOne | project/software/hello/src/app.c:347-363 | the two constants stand for 0.5 and 1.0 by their sign, exponent and fraction |
| Floats.ScreenSizes | project/software/hello/src/app.c:224-225 | the words for 400, 240 and their halves stand for those numbers |
| Frames.RowResultsShade | project/software/hello/src/app.c:244-314 | running the shader on any row of a batch shades the record there |
| Frames.FrameRan | project/software/hello/src/main.c:127-131 | a run shades every task's record and leaves its vertex in place for the next frame |
| Frames.SetUp | project/software/hello/src/main.c:115-116 | after one upload of vertices and program the device is ready for any number of frames |
| Frames.DrawFrame | project/software/hello/src/main.c:118-131 | constants, run, download: each point is its vertex under this frame's constants, and the device is ready again |
| Frames.DrawFrames | project/software/hello/src/main.c:115-131 | the k-th frame shows the k-th constants' points, without a new upload of vertices or program |
| Frames.PointIsProduct | project/software/hello/src/mathc.c:1689-1700 | words 3t and 3t + 1 of a frame are the integers of half the screen's width and height plus the library's product of (x, y, z, 1) and the matrix, if products commute and the first survives the addition to zero; the halves are half the values where the multiplication is exact |
| LineRaster.WalkTracks | project/software/hello/src/app.c:430-453 | after any number of rounds the error variable is half the deviation from the ideal line, the point is the nearest on its step, and the longer side has moved every time |
| LineRaster.NearestIsUnique | project/software/hello/src/app.c:442-452 | on each step of the longer side exactly one point is nearest |
| LineRaster.VisitedIsOnLine | project/software/hello/src/app.c:432-453 | every visited point is on the line, and the end is reached exactly after max(width, height) rounds |
| LineRaster.OnLineIsVisited | project/software/hello/src/app.c:432-453 | every point of the line is visited, on the step that its distance along the longer side says |
| LineRaster.ErrorFits | project/software/hello/src/app.c:430-442 | the doubled error stays far inside 32 bits |
| LineRaster.FrozenStays | project/software/hello/src/app.c:426-453 | when both differences change sign in the conversion and the first error moves nothing, every round leaves the loop where it began |
| LineRaster.EndsExactlyIfFits | project/software/hello/src/app.c:426-453 | some round is the last one, with every doubled error before it inside 32 bits, if and only if the differences fit 16 bits |
| LineRaster.OverflowsExactly | project/software/hello/src/app.c:430-442 | a round overflows the error variable before the end is reached if and only if the line neither fits nor is frozen |
| LineRaster.WideLineOverflows | project/software/hello/src/app.c:426-453 | a line of 40000 columns and no rows overflows |
| LineRaster.LargeLineStays | project/software/hello/src/app.c:426-453 | one of 40000 columns and 50000 rows stays at its first point for ever |
| LineRaster.IndexInjective | project/software/hello/src/app.c:438 | different pixels have different places in the buffer |
| LineRaster.IndexIsRowMajor | project/software/hello/src/app.c:438 | pixel (x, y) is word y * width + x |
| LineRaster.PathIsLine | project/software/hello/src/app.c:435-439 | the stores of the whole walk turn exactly the line's points on the screen white |
| LineRaster.DrawLine | project/software/hello/src/app.c:424-453 | the loop ends, stays in the buffer, and makes word y * width + x the value 0xffff exactly if the line passes through (x, y) |
| LineRaster.RenderOnScreen | project/software/hello/src/app.c:388-422 | word y * 400 + x of the frame is 0xffff if an edge of a complete index triple passes through (x, y), and 0 otherwise |
| TriangleSoup.AreaOfParts | project/software/hello/src/app.c:59-87 | each of the four parts has a quarter of the triangle's oriented area vector |
| TriangleSoup.SubdivisionConservesArea | project/software/hello/src/app.c:34-91 | subdivision conserves the sum of the oriented area vectors |
| TriangleSoup.SubdivisionConservesVolume | project/software/hello/src/app.c:34-91 | the enclosed volume is conserved |
| TriangleSoup.Halves | project/software/hello/src/mathc.c:1445-1451 | which edges have a given half: the point beyond the middle is determined |
| TriangleSoup.EdgesOfSubdivided | project/software/hello/src/app.c:41-90 | how often a directed edge occurs after subdivision, from how often its two extensions occurred before |
| TriangleSoup.SubdivisionKeepsClosed | project/software/hello/src/app.c:34-91 | a surface whose directed edges occur as often as their reverses keeps that |
| TriangleSoup.RepeatedSubdivision | project/software/hello/src/app.c:34-91 | so does any number of subdivisions, and area sum and enclosed volume stay |
| Mesh.SoupStep | project/software/hello/src/app.c:41-90 | one round on vertex and index buffers replaces one triangle by its inner part and appends its three corners |
| Mesh.BoxIsBalanced | project/software/hello/src/app.c:117-135 | in the box's index table every directed edge occurs in both directions |
| Mesh.BalancedIsClosed | project/software/hello/src/app.c:93-177 | balanced indices make a closed surface wherever the vertices lie |
| Mesh.BoxStaysClosed | project/software/hello/src/app.c:93-177 | the box is closed and stays so through any number of subdivisions |
| Mesh.BoxCorners | project/software/hello/src/app.c:95-104 | the corners are the eight combinations of plus and minus the size, each once |
| Mesh.BoxFaces | project/software/hello/src/app.c:117-135 | each face has two triangles, in the plane at the size along its outward axis, facing that way, with half the square's area each |
| Mesh.BoxVolume | project/software/hello/src/app.c:93-177 | the twelve triangles enclose the cube's volume, outside facing out, and so do all their subdivisions |
| Mesh.Mesh.constructor | project/software/hello/src/app.c:22-32 | an empty mesh with the given capacities |
| Mesh.Mesh.SubdivideTriangle | project/software/hello/src/app.c:43-89 | one round in place: old vertices kept, triangle replaced, corners appended |
| Mesh.Mesh.Subdivide | project/software/hello/src/app.c:34-91 | V and I become V + I and 4I, indices stay below the vertex count, the triangles are the subdivided ones |
| Mesh.Mesh.CreateBox | project/software/hello/src/app.c:93-177 | eight vertices and twelve triangles that form a closed surface, two to each face of the cube, facing outward and enclosing its volume |
| JtagUart.CarriesFree | project/software/Hello_bsp/drivers/src/altera_avalon_jtag_uart_write.c:122 | a store into a free cell goes unnoticed by the ring |
| JtagUart.CarriesPut | project/software/Hello_bsp/drivers/src/altera_avalon_jtag_uart_write.c:126 | moving the tail over free cells puts their bytes in, in order |
| JtagUart.CarriesTake | project/software/Hello_bsp/drivers/src/altera_avalon_jtag_uart_read.c:140 | moving the head over held cells takes their bytes out, in order |
| JtagUart.WriteChunkIsFree | project/software/Hello_bsp/drivers/src/altera_avalon_jtag_uart_write.c:109-117 | the writer's chunk is contiguous and free, one cell of the ring always stays empty, and it is zero exactly for a full ring |
| JtagUart.ReadChunkIsHeld | project/software/Hello_bsp/drivers/src/altera_avalon_jtag_uart_read.c:125-131 | the reader's chunk is contiguous and held, and zero exactly for an empty ring |
| JtagUart.FullAndEmpty | project/software/Hello_bsp/drivers/src/altera_avalon_jtag_uart_init.c:137-139 | the interrupt routine's two pointer comparisons decide full and empty exactly |
| Buffers.CopiedAt | project/software/Hello_bsp/drivers/src/altera_avalon_jtag_uart_write.c:122 | after a copy every cell holds its copied item or, outside the copied range, what it held |
| JtagUart.Uart.constructor | project/software/Hello_bsp/drivers/src/altera_avalon_jtag_uart_init.c:66-93 | empty rings, receive interrupt on, transmit interrupt off, and no timeout if the alarm did not start |
| JtagUart.Uart.IrqReceive | project/software/Hello_bsp/drivers/src/altera_avalon_jtag_uart_init.c:125-167 | takes bytes until the ring is full or the device has none, turns the interrupt off only for a full ring, and leaves held cells alone |
| JtagUart.Uart.IrqTransmit | project/software/Hello_bsp/drivers/src/altera_avalon_jtag_uart_init.c:169-195 | sends as many bytes as there are and fit, and turns the interrupt off exactly if the ring ran empty first |
| JtagUart.Uart.Irq | project/software/Hello_bsp/drivers/src/altera_avalon_jtag_uart_init.c:106-197 | over the control words that the device gives, as many bytes are sent as it offers space for and the ring holds, the transmit interrupt goes off exactly if it offers more, a request to receive is met until the ring is full or the device drained, and it ends with a word that requests nothing; both byte histories and every cell that main code may be copying are kept |
| JtagUart.Uart.HostTimer | project/software/Hello_bsp/drivers/src/altera_avalon_jtag_uart_init.c:203-225 | the activity timer touches neither rings nor enables |
| JtagUart.Uart.CopyByte | project/software/Hello_bsp/drivers/src/altera_avalon_jtag_uart_write.c:122 | a byte copied with interrupts around it lands in a cell that the interrupt routine cannot be reading |
| JtagUart.Uart.CopyIn | project/software/Hello_bsp/drivers/src/altera_avalon_jtag_uart_write.c:103-127 | the copy loop accepts data in order until it runs out or the ring is full |
| JtagUart.Uart.ArmWrite | project/software/Hello_bsp/drivers/src/altera_avalon_jtag_uart_write.c:136-139 | after the update of the ring the transmit interrupt is on |
| JtagUart.Uart.WriteRound | project/software/Hello_bsp/drivers/src/altera_avalon_jtag_uart_write.c:100-191 | one round of filling, enabling and waiting, with interrupts and timer ticks before the test that decides on another |
| JtagUart.Uart.Write | project/software/Hello_bsp/drivers/src/altera_avalon_jtag_uart_write.c:83-215 | accepts a prefix, at least what fits, all unless non-blocking, still waiting or the host is found inactive; the count, would-block and error results; nothing lost, doubled or reordered |
| JtagUart.Uart.ReadByte | project/software/Hello_bsp/drivers/src/altera_avalon_jtag_uart_read.c:136 | a byte copied out with interrupts around it is the one that was held |
| JtagUart.Uart.CopyOut | project/software/Hello_bsp/drivers/src/altera_avalon_jtag_uart_read.c:120-142 | the copy loop delivers held bytes in order until space or ring runs out |
| JtagUart.Uart.ArmRead | project/software/Hello_bsp/drivers/src/altera_avalon_jtag_uart_read.c:188-195 | after bytes were taken the receive interrupt is on |
| JtagUart.Uart.ReadRound | project/software/Hello_bsp/drivers/src/altera_avalon_jtag_uart_read.c:109-181 | one round of taking and waiting, with interrupts and timer ticks before the test that decides on another |
| JtagUart.Uart.Read | project/software/Hello_bsp/drivers/src/altera_avalon_jtag_uart_read.c:100-203 | delivers at least what was held, as space allows, and nothing else of the buffer changes; a blocking call for bytes gives an error only if the host was inactive for the timeout since the call |
| AlarmTimer.ExpiredOnDeadline | project/software/Hello_bsp/HAL/src/alt_tick.c:109-115 | the comparison with roll-over flag holds in the next tick exactly if that is the deadline |
| AlarmTimer.RenewOnTime | project/software/Hello_bsp/HAL/src/alt_tick.c:127-137 | adding the period and setting the flag stands for the next deadline, for every period |
| AlarmTimer.FiringsAreScheduled | project/software/Hello_bsp/HAL/src/alt_tick.c:87-148 | over any number of ticks and counter wraps the firings are the ideal schedule's deadlines |
| AlarmTimer.BeginOnTime | project/software/Hello_bsp/HAL/src/alt_alarm_start.c:80-96 | the fields set at the start stand for start tick plus delay plus one exactly if the start is not the early one |
| AlarmTimer.StartedAlarmKeepsSchedule | project/software/Hello_bsp/HAL/src/alt_alarm_start.c:64-112 | an alarm keeps the ideal schedule for ever if and only if it is not started early |
| AlarmTimer.FiresAtOnce | project/software/Hello_bsp/HAL/src/alt_alarm_start.c:80-96 | the early start goes off in the very next tick |
| AlarmTimer.Timer.Start | project/software/Hello_bsp/HAL/src/alt_alarm_start.c:64-112 | the two error results change nothing; success puts the alarm first in the list with its deadline |
| AlarmTimer.Timer.Stop | project/software/Hello_bsp/HAL/src/alt_tick.c:66-73 | the alarm leaves the list, the others stay |
| AlarmTimer.Timer.Tick | project/software/Hello_bsp/HAL/src/alt_tick.c:87-148 | every listed alarm is serviced once, by the driver's rules and, if exact, by the ideal scheduler's; zero periods leave the list |
| AlarmTimer.ListedAlarmsKeepSchedule | project/software/Hello_bsp/HAL/src/alt_tick.c:87-148 | after any starts, stops and ticks every exact alarm in the list has fired exactly at the ideal schedule's ticks since its start |
| AlarmTimer.RunTicks | project/software/Hello_bsp/HAL/src/alt_tick.c:87-148 | after any number of further ticks so has every exact alarm that was listed, in the list or ended |
| Matrix.Perpendicular | project/software/hello/src/mathc.c:2295-2313 | a determinant with two equal rows is zero |
| Matrix.DeterminantByRows | project/software/hello/src/mathc.c:2649-2680 | the library's twenty-four products are the expansion along the first row |
| Matrix.CofactorsOfRow | project/software/hello/src/mathc.c:2762-2943 | the sixteen cofactors, a row at a time, are the signed expansions of the other three rows |
| Matrix.AdjugateProduct | project/software/hello/src/mathc.c:2724-3163 | a matrix times the transpose of its cofactors is its determinant times the identity, on either side |
| Matrix.UnscaledIsAdjugate | project/software/hello/src/mathc.c:3206-3301 | the matrix that the inverse routine writes out term by term is that transpose |
| Matrix.DivisorIsDeterminant | project/software/hello/src/mathc.c:3302 | the number it divides by is the determinant |
| Matrix.InverseIsInverse | project/software/hello/src/mathc.c:3186-3320 | for a nonzero determinant its result is the inverse on both sides |
| Matrix.Multiply | project/software/hello/src/mathc.c:3127-3163 | the product, even when the result is one of the factors |
| Matrix.ProductActs | project/software/hello/src/mathc.c:1689-1700 | a vector times a product is the vector times the second factor and then times the first |
| Matrix.TransposeInto | project/software/hello/src/mathc.c:2724-2760 | the transpose, even in place |
| Matrix.CofactorInto | project/software/hello/src/mathc.c:2762-2943 | the cofactors, even in place |
| Matrix.InverseInto | project/software/hello/src/mathc.c:3186-3320 | a matrix may be overwritten by its inverse |
| InstrText.ReadDigits | project/software/hello/src/gppcu.c:274-276 | the 32 digits that come out at the top while the word is shifted read as the word |
| InstrText.CountStep | project/software/hello/src/gppcu.c:269-281 | the countdown of the current group reaches zero exactly at the group's end |
| InstrText.LaidLength | project/software/hello/src/gppcu.c:276-281 | one character per digit and one per finished group: 39 for a word |
| InstrText.ReadText | project/software/hello/src/gppcu.c:266-285 | a reader recovers all seven fields of any word from its text |
| InstrText.TextCharacters | project/software/hello/src/gppcu.c:266-285 | character by character: the bits from the highest down, and a space behind each of the seven groups |
| InstrText.DigitIsBit | project/software/hello/src/gppcu.c:274-276 | digit i that is shifted out is bit 31 - i of the word |
| InstrText.InstrToString | project/software/hello/src/gppcu.c:266-285 | the loop writes that text and a terminator, 40 characters, and zeros behind it |

## Left out

- The wiring of a device transaction, PIO writes and the clock bit.
- Program memory has no end in the model, where the hardware has 4096 words; device accesses are one call each.
- Gppcu.Host.ProgramAutofeedDeviceParallel: for a program that uses registers above 9 only the device settings are stated.
- Gppcu.Host.PutInstr: the buffer's capacity is a precondition, because the source's check only prints.
- Gppcu.Host.Write: the data's length and the fit of a record are preconditions for the same reason.
- The host's waiting for completion of a run: a run is taken to finish at once.
- EndToEnd.ProcessTasks: that the batch fits, by the host's check and the condition of Capacity.RunsRightExactly, is a precondition; programs that set flags, write the pivot, or reach memory other than by the pivot are outside; a record is below 256 words, as in the source.
- The arithmetic of the floating point unit: its operations are parameters, and a status-setting floating point instruction clears the flags. FNEG and the unused operation codes write nothing, as the decoder has it.
- Pipeline.PassesRunOnPipeline: memory and flags take effect at once; only register results are late.
- Capacity.RunsRightExactly: a thread's memory is below 2^31 - 512 words, so that no lane's base overflows 32 bits.
- Shader.SumIsVec4Multiply: no claim where the first product is a negative zero, which the addition to zero changes; Frames.PointIsProduct likewise.
- The z word of a downloaded point: the shader never writes it.
- Frames.DrawFrames: the matrix of each frame is an input, since the trigonometry of world, camera and perspective is not modelled; the loop runs for a given list of frames.
- LineRaster.DrawLine: lines whose differences do not fit are a precondition: by LineRaster.OverflowsExactly the source's loop overflows its error variable on them, after which C promises nothing, or runs for ever.
- LineRaster.RenderOnScreen: index values beyond the points are a precondition; the frame memory is an array.
- Mesh.Mesh.Subdivide: coordinates are reals, and capacities that are too small are preconditions as in the source.
- The unused second box and the empty sphere routine of the mesh code.
- JtagUart.Uart.Irq: an interrupt that never finds the device idle is not modelled; every interrupt ends after some number of passes.
- JtagUart.Uart.Write: the wait is watched for a number of looks, after which the outcome is `StillWaiting`; that the device ever makes room is not claimed.
- The small UART driver, the uC/OS-II branches, ioctl, close and the option that ignores a full FIFO.
- AlarmTimer.Timer.Start: an alarm must not be in the list already; the linked list is a sequence, and callbacks do not start or stop alarms.
- Matrix.InverseInto: a zero determinant is a precondition; the source divides by it.
- Rounding in the matrix kernel: it is proved over the reals.
- InstrText.InstrToString: the countdown array is a sequence, and nothing is stated about a buffer's characters beyond the first 64.
- The rest of the math library, the HAL's file descriptors, locks and boot code, and the experiments in `main.c`: they would only add easy members.
