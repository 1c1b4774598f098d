# PShape, modelled and proved in Dafny

This project models `PShape`, the retained vector-shape node of Processing for
Android (`core/src/processing/core/PShape.kt`). A `PShape` records what a
sketch authors between `beginShape()` and `endShape()`: vertices, vertex codes
and contours, style settings, and a transformation matrix. It also holds a
hierarchy of child shapes with a name table, takes post-hoc edits through its
`set*` methods, and replays itself on a renderer through `draw()`.

The model keeps the source's form:

- **A node is a class.** `Shape.PShape` has the node's own fields. `vertices`, `mvertexCodes` and `mparams` are arrays: `vertices` holds optional rows, because `bezierVertex()` allocates null slots. Each method says what it changes and how. Warnings are a ghost `warnings` log.
- **The hierarchy is an arena.** `Hierarchy.Forest` holds a sequence of `PShape` objects and, beside it, one `Links` value per node (`parent` as an index, `mchildren`, `childCount`, `nameTable`). `addChild`, `removeChild`, `addName` and `crop` rewrite those links. `enableStyle()`/`disableStyle()` write the `style` field of the nodes they reach.
- **The renderer is an event log.** `Render.Cmd` is one call on `PGraphics`, and `Render.Replay` is the calls made plus the exception that ended them, if any. `drawPath()`, `drawGeometry()` and `parseHexBinary()` are methods with the source's loops. Each is proved equal to a specification function, and the properties are lemmas about those functions.
- **Exceptions are values.** The source's `NullPointerException` (the `!!` operator), `ArrayIndexOutOfBoundsException`, `NegativeArraySizeException`, `NumberFormatException`, `IllegalArgumentException` and `StackOverflowError` are `Base.Exception` values in a `Result` or `Outcome`. Whatever was stored before the throw stays stored.
- **Numbers:**
  - Kotlin's `Int` is modelled exactly: 32-bit packing, shifts, masks and `Float.toInt()` saturation (`Int32Ops`).
  - `Float` is idealised as a real.
- **Colour is pure.** The `calc*` fields are computed by `Color.Calculate`.
- **Images are strings plus an injected loader.** The `data:` URL (section 3 of RFC 2397) and the `file://` prefix are decided on the string. Decoding a bitmap is a parameter `loader: string -> Option<Image>`. The drawing model decodes a data URL's payload with `parseHexBinary`, as the code does. The Base64 reading is only the corrected half of the finding below.

## Model

| member | source | states |
|---|---|---|
| Int32Ops.U32 | core/src/processing/core/PShape.kt:2914-2928 | an Int's 32-bit unsigned reading lies below 2^32 |
| Int32Ops.Low24 | core/src/processing/core/PShape.kt:3032-3040 | `argb and 0xFFFFFF` lies below 2^24 |
| Int32Ops.ToInt | core/src/processing/core/PShape.kt:2941-2945 | `Float.toInt()` truncates toward zero inside the Int range and saturates at Int.MAX_VALUE / Int.MIN_VALUE outside it |
| Int32Ops.UnsignedOfWord | core/src/processing/core/PShape.kt:2914-2928 | reading an Int as four bytes and back as unsigned agrees with the value modulo 2^32 |
| Int32Ops.WordOfInt | core/src/processing/core/PShape.kt:3032-3048 | an Int survives splitting into its four bytes and reassembling |
| Int32Ops.IntOfWord | core/src/processing/core/PShape.kt:3032-3048 | four bytes survive assembling into an Int and splitting again |
| Int32Ops.ByteWord | core/src/processing/core/PShape.kt:2945 | a byte is an Int whose upper three bytes are zero |
| Int32Ops.PackBytes | core/src/processing/core/PShape.kt:2945 | `a shl 24 or (r shl 16) or (g shl 8) or b` on bytes has exactly the bytes a, r, g, b, read back by `shr n and 0xff` |
| Int32Ops.UnpackPack | core/src/processing/core/PShape.kt:3032-3048 | packing the four extracted bytes of any Int gives that Int back |
| Int32Ops.AlphaOverride | core/src/processing/core/PShape.kt:3037-3038 | for any a, `a shl 24 or (argb and 0xFFFFFF)` keeps the low three bytes of argb and puts a mod 256 in the top byte, so an out-of-range calcAi wraps; with the alpha byte of argb it is argb itself |
| Int32Ops.LowWord | core/src/processing/core/PShape.kt:3038 | masking with 0xFFFFFF clears the top byte and keeps the other three |
| Int32Ops.HighWord | core/src/processing/core/PShape.kt:3038 | `a shl 24` has a mod 256 as its top byte and zero in the other three |
| Int32Ops.LowByte | core/src/processing/core/PShape.kt:3038 | the low byte of the 32-bit word of any Int is that Int mod 256 |
| Color.SetColorMode | core/src/processing/core/PShape.kt:2896-2912 | the mode and four maxima are stored; `colorModeScale` is false iff all four maxima are 1; `colorModeDefault` holds iff the mode is RGB and all maxima are 255 |
| Color.SetColorModeMax | core/src/processing/core/PShape.kt:2866-2868 | colorMode(mode, max) is colorMode with the same maximum four times; no scaling iff max is 1 |
| Color.Clamp | core/src/processing/core/PShape.kt:2933-2936 | a clamped value is never negative, never above a non-negative maximum, and unchanged when already in range |
| Color.SectorOf | core/src/processing/core/PShape.kt:2984-2986 | for a hue fraction in 0..1 the sector index lies in 0..5 and the fraction in [0, 1) |
| Color.Scaled | core/src/processing/core/PShape.kt:3036-3037 | an alpha byte scaled by alpha/colorModeA, for alpha in range, stays between 0 and the byte |
| Color.UnitToByte | core/src/processing/core/PShape.kt:2941-2944 | a fraction in 0..1 times 255, truncated, is a byte |
| Color.FinishBytes | core/src/processing/core/PShape.kt:2941-2946 | for fractions in 0..1 the four Ints are bytes, calcColor packs exactly those bytes, and calcAlpha says whether alpha is not 255 |
| Color.HsbChannels | core/src/processing/core/PShape.kt:2972-3029 | for h, s, v in 0..1 every HSB sector is defined and its R, G, B span exactly v*(1-s)..v: one channel is v and one is v*(1-s) |
| Color.SectorOrder | core/src/processing/core/PShape.kt:2987-3019 | each of the six sectors places v, p and one of q or t, so its channels span p..v |
| Color.PickSpans | core/src/processing/core/PShape.kt:2992-3019 | the six `when` arms each give a triple spanning p..v when q and t lie between p and v |
| Color.HsbParts | core/src/processing/core/PShape.kt:2987-2990 | p = v*(1-s) is the lowest of p, q, t and none exceeds v |
| Color.ChannelBytes | core/src/processing/core/PShape.kt:2930-3030 | in RGB or HSB mode with positive maxima, every gray or channel colour yields four bytes, packed into calcColor |
| Color.GrayBytes | core/src/processing/core/PShape.kt:2930-2947 | colorCalc(gray, alpha) clamps both inputs, gives R = G = B, and yields bytes packed into calcColor |
| Color.ChannelsBytes | core/src/processing/core/PShape.kt:2949-3030 | colorCalc(x, y, z, a) yields bytes packed into calcColor |
| Color.FractionsInUnit | core/src/processing/core/PShape.kt:2953-2982 | every input is clamped into [0, max] before use, so all four fractions lie in 0..1 |
| Color.PackedGray | core/src/processing/core/PShape.kt:2914-2920 | an Int with a zero alpha byte and at most colorModeX takes the gray path: equal channels, in fractions and in Ints |
| Color.PackedPassesThrough | core/src/processing/core/PShape.kt:3032-3048 | any other Int takes the ARGB path: calcColor is the Int itself, and calcAi/Ri/Gi/Bi are its four bytes |
| Color.HsbGray | core/src/processing/core/PShape.kt:2972-2976 | in HSB mode a saturation clamped to zero gives R = G = B = the brightness fraction |
| Color.AlphaReplaced | core/src/processing/core/PShape.kt:3036-3038 | with an explicit alpha other than colorModeA, the colour keeps the low three bytes of argb and its alpha byte is calcAi mod 256, because calcAi is not clamped; for alpha in 0..colorModeA calcAi is a byte no larger than the original alpha byte, and is the alpha byte itself |
| Color.AlphaWraps | core/src/processing/core/PShape.kt:3032-3048 | `fill(0xFFFF0000.toInt(), 300f)` in the default space gives calcAi 300, and the colour 0x2CFF0000: the alpha byte wraps to 0x2C |
| Color.ScaledToInt | core/src/processing/core/PShape.kt:3036-3037 | a byte times a fraction in 0..1, truncated, stays between 0 and the byte |
| Color.WholeFraction | core/src/processing/core/PShape.kt:3044-3047 | a byte divided by 255 and multiplied back truncates to the same byte |
| Color.FinishWhole | core/src/processing/core/PShape.kt:2941-2945 | byte fractions are converted back to the same bytes and packed |
| Color.DefaultSpaceRoundTrip | core/src/processing/core/PShape.kt:2949-3030 | in the default RGB/255 space, colour channels given as bytes come back as those bytes, packed |
| Color.DefaultChannels | core/src/processing/core/PShape.kt:2955-2966 | in the default space, channel values in 0..255 are divided by 255 |
| Color.DefaultSpaceGray | core/src/processing/core/PShape.kt:2930-2947 | in the default space a gray byte g gives the opaque colour with R = G = B = g |
| Color.DefaultGray | core/src/processing/core/PShape.kt:2930-2947 | in the default space a gray level in range is divided by 255, with full alpha |
| Color.Calculate | core/src/processing/core/PShape.kt:2914-3030 | colorCalc for each argument form, a missing alpha being colorModeA |
| Color.GrayCalc | core/src/processing/core/PShape.kt:2930-2947 | colorCalc(gray, alpha): both clamped and scaled, R = G = B = gray |
| Color.ChannelsCalc | core/src/processing/core/PShape.kt:2949-3030 | colorCalc(x, y, z, a): clamped and scaled channels, converted from HSB in HSB mode |
| Color.ArgbCalc | core/src/processing/core/PShape.kt:3032-3048 | colorCalcARGB(argb, alpha): the Int itself when alpha is colorModeA, else its top byte replaced by the scaled alpha |
| Color.HsbToRgb | core/src/processing/core/PShape.kt:2972-3029 | the HSB sector step: gray when the saturation is zero, else the sector's arrangement of v, p, q and t |
| Render.Then | core/src/processing/core/PShape.kt:1316-1322 | running two call sequences in turn concatenates them, and the first exception ends the replay |
| Render.ThenAssociative | core/src/processing/core/PShape.kt:1316-1345 | chaining replays is associative |
| Render.CountAppend | core/src/processing/core/PShape.kt:1241-1309 | the count of a call in two sequences joined is the sum of the counts |
| Render.BalancedAppend | core/src/processing/core/PShape.kt:1341-1345 | joining two bracketed sequences keeps them bracketed on the matrix and the style stack: no prefix pops more than it has pushed, and the pushes and pops are equal in number |
| Render.CountPrefix | core/src/processing/core/PShape.kt:1241-1309 | a prefix never holds more of a call than the whole sequence |
| Render.CountPrefixAppend | core/src/processing/core/PShape.kt:1241-1309 | a prefix reaching into the second of two joined sequences counts all of the first and the prefix of the second |
| Render.BracketedAppend | core/src/processing/core/PShape.kt:1341-1345 | joining two sequences bracketed for one push/pop pair keeps them bracketed |
| Render.BracketedEnclosed | core/src/processing/core/PShape.kt:1316-1322 | a bracketed middle enclosed by a prefix that only pushes and a suffix that pops the same number, pushing nothing, is bracketed |
| Render.PopFirstUnbalanced | core/src/processing/core/PShape.kt:1285-1309 | popMatrix() before pushMatrix() is not bracketed, although the counts match: bracketing is about order, not only counts |
| Transforms.Dims | core/src/processing/core/PShape.kt:2581-2844 | every transform call asks checkMatrix for either 2 or 3 dimensions |
| Transforms.CheckMatrix | core/src/processing/core/PShape.kt:2850-2861 | the result is never null and keeps the applied operations; null becomes 2D iff 2 dimensions are asked for; 2D becomes 3D iff 3 are; a 3D matrix is unchanged |
| Transforms.Transformed | core/src/processing/core/PShape.kt:2581-2861 | after any transform call the matrix is non-null and holds the old operations plus the new one, or none after resetMatrix |
| Transforms.KindOrder | core/src/processing/core/PShape.kt:2850-2861 | a 3D matrix is never downgraded; a 3D request always leaves a 3D matrix; the result is 2D iff the call asks for 2 and the matrix was not 3D |
| Transforms.AfterAllOps | core/src/processing/core/PShape.kt:2581-2844 | a run of transform calls leaves a non-null matrix holding exactly the operations after the last reset, in call order |
| Transforms.NoResetAppends | core/src/processing/core/PShape.kt:2581-2844 | without a reset, the operations are appended in call order |
| Transforms.Embed2D | core/src/processing/core/PShape.kt:2816-2819 | applyMatrix(PMatrix2D) goes through the sixteen-entry form and so asks for 3 dimensions |
| VertexStore.Grown | core/src/processing/core/PShape.kt:1151-1157 | the `PApplet.expand` contract: the array doubles (an empty one becomes one long), its prefix is the old contents, and the new slots hold the filler |
| VertexStore.Write | core/src/processing/core/PShape.kt:1920-1927 | `vertices[i][f] = v` succeeds iff row i exists and has field f, and then changes only that field; otherwise it throws NPE for a null row and IOOBE out of range |
| VertexStore.WriteAll | core/src/processing/core/PShape.kt:1920-1992 | a run of field writes to one row keeps the array length |
| VertexStore.Sweep | core/src/processing/core/PShape.kt:2084-2095 | the per-vertex loop over the first mvertexCount rows keeps the array length |
| VertexStore.Field | core/src/processing/core/PShape.kt:1899-1909 | reading `vertices[i][f]` succeeds iff the row exists and has the field, and gives that field; a null row throws NPE, any index or field out of range IOOBE |
| VertexStore.Stored | core/src/processing/core/PShape.kt:1920-1992 | writing fields into a row keeps its length |
| VertexStore.StoredFields | core/src/processing/core/PShape.kt:1920-1992 | after distinct field writes each written field holds its value and every other field is unchanged |
| VertexStore.WriteAllCompletes | core/src/processing/core/PShape.kt:1920-1992 | when the row holds every written field, the writes return and replace only row i |
| VertexStore.WriteAllAtomic | core/src/processing/core/PShape.kt:1920-1940 | when the first write has the highest field index, a run that throws changes nothing |
| VertexStore.RgbWritesPartial | core/src/processing/core/PShape.kt:2330-2341 | the writes are not atomic: a colour write into a row that ends before its green field stores red, then throws IOOBE |
| VertexStore.SweepHalts | core/src/processing/core/PShape.kt:2084-2095 | once a per-vertex write throws, the loop stops and later rows are never touched |
| VertexStore.AssignedFields | core/src/processing/core/PShape.kt:1920-1992 | a setter on a present row holding its fields returns and writes exactly those fields |
| VertexStore.VectorSetFlat | core/src/processing/core/PShape.kt:1945-1955 | setVertex(index, PVector) on a two-field row writes X and Y, writes no Z, and throws IllegalArgumentException iff z is non-zero |
| VertexStore.ChannelLocal | core/src/processing/core/PShape.kt:2037-2053 | a channel read depends on row i alone |
| VertexStore.ArgbAtLocal | core/src/processing/core/PShape.kt:2037-2053 | a colour read depends on row i alone |
| VertexStore.OpaqueAtLocal | core/src/processing/core/PShape.kt:2317-2328 | an opaque colour read depends on row i alone |
| VertexStore.SweptArgb | core/src/processing/core/PShape.kt:2084-2121 | setFill(Int) over rows that hold the fields returns, and every row in use then reads back exactly that colour |
| VertexStore.SweptOpaque | core/src/processing/core/PShape.kt:2330-2357 | setAmbient(Int) and the like store R, G and B into every row in use, which then reads back as the opaque colour |
| VertexStore.OpaqueMask | core/src/processing/core/PShape.kt:2317-2328 | the opaque mask `0xff shl 24` is the Int -0x1000000 |
| VertexStore.ChannelOfFraction | core/src/processing/core/PShape.kt:2037-2053 | a byte stored as byte/255 reads back, times 255 and truncated, as the same byte |
| VertexStore.ArgbRoundTrip | core/src/processing/core/PShape.kt:2037-2121 | getFill(i) after setFill(i, c) on an untextured row gives back c |
| VertexStore.OpaqueRoundTrip | core/src/processing/core/PShape.kt:2317-2357 | getAmbient(i) after setAmbient(i, c) gives back c with an opaque alpha byte |
| VertexStore.SweptField | core/src/processing/core/PShape.kt:2270-2299 | setStrokeWeight(w) and the like leave w in the field of every row in use |
| VertexStore.SweepStores | core/src/processing/core/PShape.kt:2084-2095 | the sweep writes every row in use and leaves the rows past mvertexCount unchanged |
| VertexStore.Touched | core/src/processing/core/PShape.kt:2111-2114 | a per-vertex setter: a missing array or an index at or past the capacity only warns, else the stores (see also lines 2116-2121) |
| VertexStore.Assigned | core/src/processing/core/PShape.kt:1920-1992 | setVertex() and setNormal(): the stores through `vertices!!`, which throws NPE without an array |
| VertexStore.VectorSet | core/src/processing/core/PShape.kt:1945-1955 | setVertex(index, vec): x, y, then z on a row of more than two fields; a two-field row refuses a non-zero z |
| VertexStore.ArgbAt | core/src/processing/core/PShape.kt:2037-2053 | getFill(i): the four channels times 255, packed as a shl 24 or r shl 16 or g shl 8 or b; it returns iff the row exists and has all four fields, and otherwise throws NPE for a null row, IOOBE for any other failure |
| VertexStore.OpaqueAt | core/src/processing/core/PShape.kt:2317-2328 | getAmbient(i) and the like: the three channels packed under an opaque alpha byte; it returns iff the row exists and has all three fields, and otherwise throws NPE for a null row, IOOBE for any other failure |
| Authoring.CodeOf | core/src/processing/core/PShape.kt:681-700 | vertex, quadraticVertex and bezierVertex append a drawing code, never CURVE_VERTEX (see also lines 1151-1202) |
| Authoring.RowRoomKeeps | core/src/processing/core/PShape.kt:681-686 | the room test (allocate or expand) keeps the rows in use and leaves at least mvertexCount slots (see also lines 1154-1158, 1183-1187) |
| Authoring.PutRowsStores | core/src/processing/core/PShape.kt:687 | storing points that fit puts each point in the next slot, advances mvertexCount by the count and leaves the other slots unchanged (see also lines 1159-1161, 1188-1189) |
| Authoring.PutCodeAppends | core/src/processing/core/PShape.kt:688-693 | appending a code to an existing or allocatable array keeps the codes before it and adds exactly that code (see also lines 1164-1167) |
| Authoring.StoredRows | core/src/processing/core/PShape.kt:681-700 | when the rows fit, the rows in use become the old rows plus the new points (see also lines 1151-1202) |
| Authoring.AddedStride | core/src/processing/core/PShape.kt:681-700 | the stride invariant is kept: the call adds one code, its stride's rows, and changes nothing before them (see also lines 1151-1202) |
| Authoring.PutRowsOverflow | core/src/processing/core/PShape.kt:1159-1161 | rows that run past the end of the array throw IOOBE |
| Authoring.AddedCompletes | core/src/processing/core/PShape.kt:681-700 | on a store that keeps the stride invariant, whose row array is absent or at least three long, the calls return, provided the curves find a code array (see also lines 1151-1202) |
| Authoring.AddedBounds | core/src/processing/core/PShape.kt:694-699 | mwidth/mheight never shrink; after a call that returns they are the larger of the old value and the last point (see also lines 1168-1173, 1196-1201) |
| Authoring.Added | core/src/processing/core/PShape.kt:681-700 | vertex(), quadraticVertex() and bezierVertex(): the rows, then the code, then the bounding size; an exception keeps what was stored before it (see also lines 1151-1202) |
| Authoring.Broken | core/src/processing/core/PShape.kt:646-653 | beginContourImpl(): a BREAK code is appended |
| Authoring.Put | core/src/processing/core/PShape.kt:687 | `a!![count++] = v`: the count advances before the store, which throws out of range |
| Authoring.RowRoom | core/src/processing/core/PShape.kt:681-686 | the room test: ten rows when there is no array, doubled by expand when full (see also lines 1154-1158) |
| Authoring.PutCode | core/src/processing/core/PShape.kt:688-693 | the room test of the codes, then `mvertexCodes!![mvertexCodeCount++] = code` |
| Authoring.BrokenStride | core/src/processing/core/PShape.kt:646-653 | beginContourImpl always lands one BREAK, keeps the rows and the stride invariant |
| Authoring.BezierOutgrowsOneDoubling | core/src/processing/core/PShape.kt:1151-1161 | after setPath() with two rows, a single doubling is not enough for bezierVertex: it stores two rows, throws on the third, and appends no code |
| Authoring.CopyRow | core/src/processing/core/PShape.kt:1846-1848 | arrayCopy of one row succeeds iff the source exists and fits the width, and gives a row of that width starting with the source |
| Authoring.Copied | core/src/processing/core/PShape.kt:1846-1848 | the copy loop keeps the array length |
| Authoring.CopiedHalts | core/src/processing/core/PShape.kt:1846-1848 | once a row copy throws, the loop has stopped |
| Authoring.CopiedAll | core/src/processing/core/PShape.kt:1846-1848 | when every row fits, each of the first n rows becomes its source row padded with zeros, and the rest are unchanged |
| Authoring.PathSetStores | core/src/processing/core/PShape.kt:1840-1854 | setPath() on accepted inputs sets the vertex count to vcount, copies each row padded to the first row's width, takes the first ccount codes and keeps the bounding size |
| Authoring.PathSetCounted | core/src/processing/core/PShape.kt:1840-1854 | codes whose strides add up to vcount leave the stride invariant holding |
| Authoring.PathSetOutcomes | core/src/processing/core/PShape.kt:1840-1854 | a setPath() that returns either changed nothing or had accepted inputs; one that throws never touches the codes, their count or the width |
| Authoring.PathSet | core/src/processing/core/PShape.kt:1840-1854 | setPath(): returns quietly on missing or short inputs, pads every row to the width of verts[0], assigns mvertexCount before the array, and replaces the codes only for a positive ccount |
| Paths.Coord | core/src/processing/core/PShape.kt:1498-1584 | `vertices[i][f]` in drawPath succeeds iff the row exists and has the field; otherwise NPE for a null row and IOOBE out of range |
| Paths.Fetch | core/src/processing/core/PShape.kt:1498-1584 | fetching a call's coordinates succeeds iff each one exists, and gives those values in order |
| Paths.Refs | core/src/processing/core/PShape.kt:1520-1579 | each code reads only rows index..index+stride-1, and at most the Z field |
| Paths.Plain | core/src/processing/core/PShape.kt:1504-1513 | with no codes, each of the vertex count rows is a plain VERTEX |
| Paths.NestingSnoc | core/src/processing/core/PShape.kt:1520-1584 | the contour nesting state is computed one event at a time |
| Paths.BreakCounts | core/src/processing/core/PShape.kt:1538-1544 | a BREAK adds one beginContour, and adds one endContour only when a contour was open |
| Paths.BreakNesting | core/src/processing/core/PShape.kt:1538-1544 | after a BREAK a contour is open, whatever came before |
| Paths.RunInvariant | core/src/processing/core/PShape.kt:1520-1582 | after any prefix of the codes that did not throw: index = the sum of their strides; beginContour is called once per BREAK; endContour once fewer while a contour is open; a contour is open iff a BREAK was seen; and the events alternate properly |
| Paths.StepPreserves | core/src/processing/core/PShape.kt:1520-1582 | each code step keeps the run facts |
| Paths.Step | core/src/processing/core/PShape.kt:1520-1582 | one iteration of the `when (mvertexCodes!![j])` loop: a BREAK closes an open contour and begins one, a drawing code fetches its stride of rows and emits its vertex call, an exception sticks |
| Paths.Run | core/src/processing/core/PShape.kt:1520-1582 | the loop state after the first n codes |
| Paths.PathTrace | core/src/processing/core/PShape.kt:1498-1584 | drawPath(): nothing without vertices, else beginShape(), the vertices, endContour() when a contour is still open, and endShape() |
| Paths.GeometryTrace | core/src/processing/core/PShape.kt:1425-1443 | drawGeometry(): beginShape(kind), one vertex call per vertex, endShape() |
| Paths.RunErrorSticks | core/src/processing/core/PShape.kt:1520-1582 | once a fetch throws, later codes add nothing |
| Paths.StrideSumPrefix | core/src/processing/core/PShape.kt:1520-1582 | the strides of a prefix of the codes never exceed those of all codes |
| Paths.PlainStrides | core/src/processing/core/PShape.kt:1504-1513 | the implicit plain codes have stride sum n and no BREAK |
| Paths.AuthoredRunCompletes | core/src/processing/core/PShape.kt:1520-1582 | codes whose rows are all present and wide enough replay without an exception |
| Paths.RunIndex | core/src/processing/core/PShape.kt:1520-1582 | the vertex index advances by each code's stride |
| Paths.RefsPresent | core/src/processing/core/PShape.kt:1520-1582 | a code whose rows are present and wide enough fetches its coordinates |
| Paths.ClosingFacts | core/src/processing/core/PShape.kt:1580-1583 | closing an open contour at the end makes the beginContour and endContour counts equal and the nesting closed |
| Paths.FinishedFacts | core/src/processing/core/PShape.kt:1580-1583 | the finished trace starts with beginShape, ends with endShape, has matching contour events and one beginContour per BREAK |
| Paths.PathBracketing | core/src/processing/core/PShape.kt:1498-1584 | a path drawn without error starts with beginShape and ends with endShape(CLOSE iff close), with beginContour and endContour both counted by the BREAK codes and strictly alternating |
| Paths.AuthoredPathCompletes | core/src/processing/core/PShape.kt:1498-1584 | a path whose rows are all present and wide enough draws without an exception |
| Paths.Stream | core/src/processing/core/PShape.kt:1517-1518 | the code loop reads past the array (IOOBE, or NPE with no array) iff mvertexCodeCount is positive and exceeds the codes available; otherwise it reads the first mvertexCodeCount codes |
| Paths.DrawnPath | core/src/processing/core/PShape.kt:1498-1584 | drawPath emits nothing when vertices is null, and ends in an exception when the code loop reads past the codes |
| Paths.DrawnPathLooped | core/src/processing/core/PShape.kt:1498-1584 | drawPath is beginShape, then the code loop, then endContour if still inside, then endShape; or the events up to the exception |
| Paths.DrawnPathBracketing | core/src/processing/core/PShape.kt:1498-1584 | drawPath with an in-range code count has the bracketing of the path replay |
| Paths.GeometryVertex | core/src/processing/core/PShape.kt:1428-1441 | drawGeometry's vertex i exists only for a row index inside the array, and with `style` it is the whole row, null or not |
| Paths.GeometryVertexCall | core/src/processing/core/PShape.kt:1428-1441 | without style, a row whose Z is zero gives vertex(x, y), and otherwise vertex(x, y, z) |
| Paths.GeometryRunCalls | core/src/processing/core/PShape.kt:1428-1441 | a loop without error makes one vertex call per row in use, each matching its row |
| Paths.GeometryRunThrows | core/src/processing/core/PShape.kt:1428-1441 | the loop returns iff the rows in use lie inside the array and, without style, each is present with a Z field |
| Paths.GeometryRunSticks | core/src/processing/core/PShape.kt:1428-1441 | once the geometry loop throws, later rows add nothing |
| Drawing.Params | core/src/processing/core/PShape.kt:1347-1423 | a primitive reads its first n params iff the array exists and holds them; otherwise NPE for a missing array |
| Drawing.DrawCalls | core/src/processing/core/PShape.kt:1347-1423 | a trace filtered to its drawing calls (a primitive, an arc with a mode, an image) keeps only drawing calls |
| Drawing.CallArity | core/src/processing/core/PShape.kt:1347-1423 | a primitive draw call is passed exactly its first n params |
| Drawing.ImageArity | core/src/processing/core/PShape.kt:1368-1375 | a textured rectangle draws the image with four params |
| Drawing.RectArityFacts | core/src/processing/core/PShape.kt:1376-1393 | rect takes 4, 5 or 8 params per the array size, and no call otherwise |
| Drawing.EllipseArity | core/src/processing/core/PShape.kt:1394-1399 | ellipse takes four params |
| Drawing.ArcArityFacts | core/src/processing/core/PShape.kt:1400-1414 | arc takes 6 or 7 params per the array size, and no call otherwise |
| Drawing.PrimitiveCalls | core/src/processing/core/PShape.kt:1347-1423 | every primitive kind passes exactly its kind's parameter count per the array size |
| Drawing.PrimitiveWithoutParams | core/src/processing/core/PShape.kt:1347-1423 | a primitive that reads params throws NPE when there is no params array |
| Drawing.PrimitiveModesRestored | core/src/processing/core/PShape.kt:1367-1414 | rect, ellipse and arc set the shape's rect/ellipse mode before the call and restore the renderer's after it |
| Drawing.LoadsDataUrl | core/src/processing/core/PShape.kt:1586-1594 | as written, a data URL built from bytes loads the hex decoding of their Base64 text: the NumberFormatException or IllegalArgumentException of parseHexBinary propagates, and only a Base64 text that is also hex loads, as those hex bytes, alpha checked for gif, png and unknown (see also lines 1606-1640) |
| Drawing.LoadedFrom | core/src/processing/core/PShape.kt:1586-1640 | the image after a resolved path: a data URL's bytes decoded, alpha checked for gif, png and unknown; a file URL from the loader; an exception while resolving propagates; a failed load keeps the old image |
| Drawing.LoadedImage | core/src/processing/core/PShape.kt:1586-1594 | loadImage() as written: the path resolved with the payload of a data URL read by parseHexBinary (see also lines 1606-1640) |
| Drawing.PngUrlThrows | core/src/processing/core/PShape.kt:1606-1613 | as written, the standard data URL of the PNG signature makes loadImage() throw NumberFormatException |
| Drawing.LoadsDataUrlCorrected | core/src/processing/core/PShape.kt:1606-1640 | with the payload decoded as Base64, a data URL built from bytes loads exactly those bytes, alpha checked for gif, png and unknown |
| Drawing.LoadsFileUrl | core/src/processing/core/PShape.kt:1596-1604 | a file URL asks the loader for the path after `file://`, and keeps the old texture when the loader gives none |
| Drawing.FlatIsBalanced | core/src/processing/core/PShape.kt:1425-1584 | a trace without push/pop calls has zero of each |
| Drawing.PathFlat | core/src/processing/core/PShape.kt:1498-1584 | the path replay makes no push/pop calls |
| Drawing.DrawnPathFlat | core/src/processing/core/PShape.kt:1498-1584 | drawPath makes no push/pop calls |
| Drawing.GeometryFlat | core/src/processing/core/PShape.kt:1425-1443 | drawGeometry makes no push/pop calls |
| Drawing.PrimitiveTraceFlat | core/src/processing/core/PShape.kt:1347-1423 | drawPrimitive makes no push/pop calls |
| Drawing.CallsFlat | core/src/processing/core/PShape.kt:1348-1366 | the point, line, triangle, quad, box and sphere primitives do not depend on the rect/ellipse modes or the image (see also lines 1415-1422) |
| Drawing.PrimitiveFlat | core/src/processing/core/PShape.kt:1347-1423 | a primitive draw, image loading included, makes no push/pop calls |
| Drawing.ImplFlat | core/src/processing/core/PShape.kt:1327-1339 | drawImpl of any non-group makes no push/pop calls |
| Drawing.StylesCount | core/src/processing/core/PShape.kt:1266-1283 | styles() makes no push/pop calls |
| Drawing.PreCounts | core/src/processing/core/PShape.kt:1241-1264 | pre() pushes the matrix iff there is one, and the style iff `style` is set |
| Drawing.PostCounts | core/src/processing/core/PShape.kt:1285-1309 | post() pops the matrix iff there is one, and the style iff `style` is set |
| Drawing.PrePostBalanced | core/src/processing/core/PShape.kt:1241-1309 | pre() followed by post() is bracketed on both stacks |
| Drawing.NodeBalanced | core/src/processing/core/PShape.kt:1316-1339 | a draw that finishes without an exception is bracketed on both stacks (no pop before its push, every push popped), provided a group's children were |
| Drawing.FlatBalanced | core/src/processing/core/PShape.kt:1425-1584 | a trace without push/pop calls is bracketed |
| Drawing.Enclosing | core/src/processing/core/PShape.kt:1316-1322 | pre(), then any bracketed middle, then post() is bracketed on both stacks |
| Drawing.Styles | core/src/processing/core/PShape.kt:1266-1283 | styles(): stroke(), strokeWeight(), strokeCap() and strokeJoin() or noStroke(), then fill() or noFill() |
| Drawing.Pre | core/src/processing/core/PShape.kt:1241-1264 | pre(): pushMatrix() and applyMatrix() when there is a matrix, then pushStyle() and styles() when `style` is set |
| Drawing.Post | core/src/processing/core/PShape.kt:1285-1309 | post(): popMatrix() when there is a matrix, then popStyle() when `style` is set |
| Drawing.PrimitiveTrace | core/src/processing/core/PShape.kt:1347-1423 | drawPrimitive() by kind and parameter count, with the rect, ellipse and image modes set around rect, ellipse and arc |
| Drawing.PrimitiveDraw | core/src/processing/core/PShape.kt:1367-1375 | drawPrimitive() of a RECT with a pending image path loads the image as written first, and an exception of that load ends the draw (see also lines 1586-1594) |
| Drawing.Impl | core/src/processing/core/PShape.kt:1327-1339 | drawImpl(): the children for a GROUP, else drawPrimitive(), drawGeometry() or drawPath() by family |
| Drawing.NodeTrace | core/src/processing/core/PShape.kt:1316-1325 | draw(): nothing when invisible, else pre(), drawImpl() and post(), an exception ending the trace |
| ImageSource.IndexFrom | core/src/processing/core/PShape.kt:1607 | the search finds the first occurrence at or after `from`, or reports there is none |
| ImageSource.IndexOf | core/src/processing/core/PShape.kt:1607 | the first occurrence of the delimiter, or none |
| ImageSource.Split | core/src/processing/core/PShape.kt:1607 | `split` always gives at least one part |
| ImageSource.SplitJoin | core/src/processing/core/PShape.kt:1607 | joining the parts with the delimiter gives the string back |
| ImageSource.SplitPartsFree | core/src/processing/core/PShape.kt:1607 | no part contains the delimiter |
| ImageSource.TrimEndIsPrefix | core/src/processing/core/PShape.kt:3213 | trimming the end gives a prefix whose last character is not blank |
| ImageSource.TrimIsSlice | core/src/processing/core/PShape.kt:3213 | `trim()` gives a slice of the input with no blank at either end |
| ImageSource.HexDigit | core/src/processing/core/PShape.kt:3219 | a hex digit's value is below 16 |
| ImageSource.PairValue | core/src/processing/core/PShape.kt:3219 | `substring(i, i+2).toInt(16)` of a valid pair lies in -15..255 (a sign is accepted) |
| ImageSource.ParseHexBinary | core/src/processing/core/PShape.kt:3211-3223 | the trim-and-fill loop returns exactly what the decoding function gives: after trimming, an odd length throws IllegalArgumentException, and otherwise the pairs of characters decode one byte each or throw NumberFormatException |
| ImageSource.FillPairs | core/src/processing/core/PShape.kt:3215-3221 | the fill loop decodes pair after pair from the start, as the decoding function says |
| ImageSource.DecodedPairs | core/src/processing/core/PShape.kt:3215-3221 | on success, byte k is the value of characters 2k and 2k+1, truncated to 8 bits |
| ImageSource.DecodeSucceeds | core/src/processing/core/PShape.kt:3215-3221 | decoding succeeds iff every pair parses |
| ImageSource.HexEncode | core/src/processing/core/PShape.kt:3211-3223 | the reference encoding writes two characters per byte |
| ImageSource.HexRoundTrip | core/src/processing/core/PShape.kt:3211-3223 | parseHexBinary of the hex encoding of any bytes gives the bytes back |
| ImageSource.DecodeEncoded | core/src/processing/core/PShape.kt:3215-3221 | the pair loop inverts the hex encoding |
| ImageSource.EncodedNotBlank | core/src/processing/core/PShape.kt:3213 | trimming leaves a hex encoding unchanged |
| ImageSource.EmbeddedParts | core/src/processing/core/PShape.kt:1607-1609 | the split and `substring(11)` throw only IOOBE |
| ImageSource.SplitHead | core/src/processing/core/PShape.kt:1607-1609 | the split has a second part iff the marker occurs, and then the first two parts surround its first occurrence |
| ImageSource.EmbeddedPartsFound | core/src/processing/core/PShape.kt:1607-1609 | the parts exist iff `;base64,` occurs at index 11 or later, and the extension is what lies between `data:image/` and the marker |
| ImageSource.EmbeddedPayload | core/src/processing/core/PShape.kt:1607-1609 | the payload is the text after the first marker, up to the next one |
| ImageSource.DataUrlParts | core/src/processing/core/PShape.kt:1607-1609 | a data URL built from an extension and base64 data splits back into exactly those two |
| ImageSource.DataUrlRoundTrip | core/src/processing/core/PShape.kt:1586-1640 | the corrected source reading of a data URL yields the embedded extension and bytes |
| ImageSource.ReportPrefixInBounds | core/src/processing/core/PShape.kt:1613-1616 | in the corrected Base64 reading, a payload that is not Base64 reaches the "Decode Error" report, and the URL is then long enough for its `substring(0, 20)` |
| ImageSource.AsWrittenNeverUndecodable | core/src/processing/core/PShape.kt:1612-1616 | as written the `decodedBytes == null` branch is dead: parseHexBinary never returns null, so a data URL either throws or is embedded |
| ImageSource.SourceAsWritten | core/src/processing/core/PShape.kt:1586-1613 | loadImage() as written: `data:image` paths split at `;base64,` and decode the payload with parseHexBinary, `file://` paths drop the scheme, and any other path has no source |
| ImageSource.SourceOf | core/src/processing/core/PShape.kt:1586-1613 | the corrected reading: the same prefixes, with the payload decoded as Base64 and a payload that is not Base64 reported instead of thrown |
| ImageSource.HexDecode | core/src/processing/core/PShape.kt:3211-3223 | parseHexBinary(s): trim, IllegalArgumentException on an odd length, then one byte per pair of characters |
| ImageSource.DecodePairs | core/src/processing/core/PShape.kt:3218-3221 | one byte per pair on success, and only NumberFormatException otherwise |
| ImageSource.Trim | core/src/processing/core/PShape.kt:3213 | `trim { it <= ' ' }`: the input without its leading and trailing characters at or below space |
| ImageSource.FileUrl | core/src/processing/core/PShape.kt:1586-1604 | both readings send a `file://` path to the file system with the prefix removed |
| ImageSource.NotHexAtStart | core/src/processing/core/PShape.kt:3211-3223 | an even-length string starting with a character that is neither a hex digit nor a sign fails with NumberFormatException |
| ImageSource.AsWrittenDataUrl | core/src/processing/core/PShape.kt:1606-1640 | the source as written accepts a standard data URL only when its base64 text also happens to parse as hex |
| ImageSource.AsWrittenRejectsPngUrl | core/src/processing/core/PShape.kt:1606-1640 | the source as written throws NumberFormatException on the data URL of the PNG signature |
| ImageSource.CorrectedDecodesPngUrl | core/src/processing/core/PShape.kt:1606-1640 | the corrected reading decodes that same URL to the PNG signature |
| Base64.Alphabet | core/src/processing/core/PShape.kt:1606-1640 | no base64 digit is the padding character (section 4 of RFC 4648) |
| Base64.Sextet | core/src/processing/core/PShape.kt:1606-1640 | a character's sextet value is below 64, and its alphabet character is that character |
| Base64.Encode | core/src/processing/core/PShape.kt:1606-1640 | a base64 encoding has a length divisible by four |
| Base64.RoundTrip | core/src/processing/core/PShape.kt:1606-1640 | decoding the base64 encoding of any bytes gives the bytes back |
| Base64.RejectsRaggedLength | core/src/processing/core/PShape.kt:1606-1640 | text whose length is not a multiple of four does not decode |
| Shape.Expand | core/src/processing/core/PShape.kt:684 | `PApplet.expand` gives a fresh array twice as long (one long if empty) whose prefix is the old contents (see also lines 1156, 1185) |
| Shape.PShape.constructor | core/src/processing/core/PShape.kt:366-368 | the empty shape is a visible, styled GROUP with no arrays, no matrix and stroke weight 1 |
| Shape.PShape.OfFamily | core/src/processing/core/PShape.kt:373-375 | like the empty shape, but of the given family |
| Shape.PShape.FromRenderer | core/src/processing/core/PShape.kt:380-430 | the texture mode, rect/ellipse modes and every style field come from the renderer, and the colour space from its colorMode |
| Shape.PShape.Primitive | core/src/processing/core/PShape.kt:432-435 | a PRIMITIVE of the given kind from the renderer, whose params are a copy of the ones given |
| Shape.PShape.TextureMode | core/src/processing/core/PShape.kt:597-603 | inside beginShape/endShape it sets textureMode; outside it only warns |
| Shape.PShape.Texture | core/src/processing/core/PShape.kt:605-611 | inside it sets the image; outside it only warns |
| Shape.PShape.NoTexture | core/src/processing/core/PShape.kt:613-619 | inside it clears the image; outside it only warns |
| Shape.PShape.BeginShape | core/src/processing/core/PShape.kt:749-752 | unconditionally sets kind and openShape |
| Shape.PShape.EndShape | core/src/processing/core/PShape.kt:763-776 | on a GROUP or a closed shape only a warning; otherwise it clears openShape and sets close iff the mode is CLOSE |
| Shape.PShape.ContourRefusal | core/src/processing/core/PShape.kt:629-675 | a contour call is refused iff the shape is not open, is a GROUP, or is already in (out of) a contour |
| Shape.PShape.BeginContour | core/src/processing/core/PShape.kt:629-653 | when accepted, it sets openContour and appends exactly one BREAK to the codes; when refused, it changes nothing and warns |
| Shape.PShape.EndContour | core/src/processing/core/PShape.kt:660-679 | when accepted, it clears openContour and appends no code; when refused, it only warns |
| Shape.PShape.AppendCode | core/src/processing/core/PShape.kt:647-652 | the room test on the codes, then the append, as the code store function says (see also lines 688-693, 1164-1167) |
| Shape.PShape.RowRoomFor | core/src/processing/core/PShape.kt:682-686 | allocation or expansion of vertices, as the room function says (see also lines 1154-1158, 1183-1187) |
| Shape.PShape.PutRow | core/src/processing/core/PShape.kt:687 | `vertices[mvertexCount++] = row`: the count advances even when the store throws (see also lines 1159-1161) |
| Shape.PShape.Vertex | core/src/processing/core/PShape.kt:681-700 | vertex(x, y) updates rows, codes, counts and size as the authoring function says, open or not |
| Shape.PShape.Vertex3 | core/src/processing/core/PShape.kt:706-708 | vertex(x, y, z) is vertex(x, y) |
| Shape.PShape.QuadraticVertex | core/src/processing/core/PShape.kt:1181-1202 | quadraticVertex stores two rows and a QUADRATIC_VERTEX code as the authoring function says, throwing NPE when there is no code array |
| Shape.PShape.BezierVertex | core/src/processing/core/PShape.kt:1151-1174 | bezierVertex stores three rows and a BEZIER_VERTEX code as the authoring function says, throwing NPE when there is no code array |
| Shape.PShape.StrokeWeight | core/src/processing/core/PShape.kt:780-786 | phase-gated: sets the weight inside beginShape/endShape, only warns outside |
| Shape.PShape.StrokeJoin | core/src/processing/core/PShape.kt:788-794 | phase-gated strokeJoin |
| Shape.PShape.StrokeCap | core/src/processing/core/PShape.kt:796-802 | phase-gated strokeCap |
| Shape.PShape.NoFill | core/src/processing/core/PShape.kt:806-816 | phase-gated: clears fill and fillColor, and ambientColor too unless setAmbient |
| Shape.PShape.Fill | core/src/processing/core/PShape.kt:818-898 | phase-gated: sets fill, recomputes the calc fields by colorCalc, and takes calcColor; an ARGB Int is stored as given |
| Shape.PShape.NoStroke | core/src/processing/core/PShape.kt:902-908 | phase-gated: clears stroke |
| Shape.PShape.Stroke | core/src/processing/core/PShape.kt:910-968 | phase-gated: sets stroke and strokeColor from colorCalc |
| Shape.PShape.NoTint | core/src/processing/core/PShape.kt:972-978 | phase-gated: clears tint |
| Shape.PShape.Tint | core/src/processing/core/PShape.kt:980-1038 | phase-gated: sets tint and tintColor from colorCalc |
| Shape.PShape.Ambient | core/src/processing/core/PShape.kt:1042-1070 | phase-gated: sets setAmbient and ambientColor from colorCalc |
| Shape.PShape.Specular | core/src/processing/core/PShape.kt:1074-1099 | phase-gated: specularColor from colorCalc |
| Shape.PShape.Emissive | core/src/processing/core/PShape.kt:1105-1130 | phase-gated: emissiveColor from colorCalc |
| Shape.PShape.Shininess | core/src/processing/core/PShape.kt:1136-1142 | phase-gated shininess |
| Shape.PShape.ColorMode | core/src/processing/core/PShape.kt:2896-2912 | stores the colour space; no scaling iff all maxima are 1 |
| Shape.PShape.ColorModeMax | core/src/processing/core/PShape.kt:2866-2868 | colorMode with one maximum for all four |
| Shape.PShape.Transform | core/src/processing/core/PShape.kt:2581-2861 | any transform call leaves a non-null matrix holding the new operation, never downgrading a 3D one |
| Shape.PShape.GetField | core/src/processing/core/PShape.kt:1899-1909 | reading a vertex field throws NPE without an array, and succeeds iff the row exists and has the field (see also lines 1972-1982, 1997-2003) |
| Shape.PShape.GetFill | core/src/processing/core/PShape.kt:2037-2053 | with no array, or an index at or past the capacity, the shape's fillColor; on a textured shape 0; otherwise the packed fill of the row, which returns iff the row has A, R, G, B, and throws NPE for a null row, IOOBE for a negative index; VertexStore.ArgbRoundTrip reads back what setFill(i, c) stored |
| Shape.PShape.GetTint | core/src/processing/core/PShape.kt:2123-2138 | as getFill(i) with tintColor as the fallback, but the row is read only on a textured shape and an untextured one gives 0; VertexStore.ArgbRoundTrip is its read-back partner |
| Shape.PShape.GetStroke | core/src/processing/core/PShape.kt:2181-2193 | strokeColor when there is no such vertex; otherwise the packed stroke channels, returning iff the row has SA, SR, SG, SB, else NPE/IOOBE; VertexStore.ArgbRoundTrip is its read-back partner |
| Shape.PShape.GetStrokeWeight | core/src/processing/core/PShape.kt:2261-2268 | strokeWeight when there is no such vertex; otherwise the row's SW field, returning iff the row has it, else NPE/IOOBE; VertexStore.SweptField is its read-back partner |
| Shape.PShape.GetAmbient | core/src/processing/core/PShape.kt:2317-2328 | ambientColor when there is no such vertex; otherwise the AR, AG, AB channels under an opaque alpha, returning iff the row has them, else NPE/IOOBE; VertexStore.OpaqueRoundTrip reads back what setAmbient(i, c) stored |
| Shape.PShape.GetSpecular | core/src/processing/core/PShape.kt:2359-2369 | specularColor when there is no such vertex; otherwise SPR, SPG, SPB under an opaque alpha, else NPE/IOOBE; VertexStore.OpaqueRoundTrip is its read-back partner |
| Shape.PShape.GetEmissive | core/src/processing/core/PShape.kt:2400-2410 | emissiveColor when there is no such vertex; otherwise ER, EG, EB under an opaque alpha, else NPE/IOOBE; VertexStore.OpaqueRoundTrip is its read-back partner |
| Shape.PShape.GetShininess | core/src/processing/core/PShape.kt:2442-2450 | shininess when there is no such vertex; otherwise the row's SHINE field, returning iff the row has it, else NPE/IOOBE; VertexStore.SweptField is its read-back partner |
| Shape.PShape.StoreAll | core/src/processing/core/PShape.kt:1920-1992 | the writes of one setter to one row, as the store function says |
| Shape.PShape.PerVertex | core/src/processing/core/PShape.kt:2100-2121 | without perVertexStyles a per-vertex style setter only warns; with it the writes go through |
| Shape.PShape.SweepVertices | core/src/processing/core/PShape.kt:2084-2095 | the loop over the first n rows, as the sweep function says, with the warnings of the per-vertex setter appended in order: with styles on and perVertexStyles off one PER_VERTEX_UNSUPPORTED per row and no write; otherwise, when the loop returns, one NO_SUCH_VERTEX per row at or past the capacity |
| Shape.PShape.SetTextureMode | core/src/processing/core/PShape.kt:2021-2027 | phase-gated the other way: only outside beginShape/endShape |
| Shape.PShape.SetTexture | core/src/processing/core/PShape.kt:2029-2035 | only outside beginShape/endShape |
| Shape.PShape.SetFillFlag | core/src/processing/core/PShape.kt:2058-2064 | setFill(Boolean) only outside beginShape/endShape |
| Shape.PShape.SetTintFlag | core/src/processing/core/PShape.kt:2140-2146 | setTint(Boolean) only outside |
| Shape.PShape.SetStrokeFlag | core/src/processing/core/PShape.kt:2198-2204 | setStroke(Boolean) only outside |
| Shape.PShape.SetStrokeJoin | core/src/processing/core/PShape.kt:2301-2307 | only outside |
| Shape.PShape.SetStrokeCap | core/src/processing/core/PShape.kt:2309-2315 | only outside |
| Shape.PShape.SetVertex | core/src/processing/core/PShape.kt:1920-1927 | only outside; writes X and Y of row i, or throws as the store says |
| Shape.PShape.SetVertex3 | core/src/processing/core/PShape.kt:1932-1940 | only outside; writes X, Y and Z |
| Shape.PShape.SetVertexVector | core/src/processing/core/PShape.kt:1945-1955 | only outside; writes Z only when the row is wider than two |
| Shape.PShape.SetNormal | core/src/processing/core/PShape.kt:1984-1992 | only outside; writes the three normal fields |
| Shape.PShape.Assign | core/src/processing/core/PShape.kt:1920-1992 | a field write after the NPE check on `vertices` |
| Shape.PShape.SetTextureUV | core/src/processing/core/PShape.kt:2005-2019 | only outside; writes U and V |
| Shape.PShape.SetFillAt | core/src/processing/core/PShape.kt:2100-2121 | only outside and with perVertexStyles; an untextured row reads back the colour |
| Shape.PShape.SetFillColor | core/src/processing/core/PShape.kt:2084-2095 | only outside; sets fillColor and, with perVertexStyles, the fill of every row in use, which then reads back the colour; the warnings gain one NO_SUCH_VERTEX per row in use past the array (see also lines 2100-2124) |
| Shape.PShape.SetTintAt | core/src/processing/core/PShape.kt:2161-2179 | only outside; a textured row gets the tint |
| Shape.PShape.SetTintColor | core/src/processing/core/PShape.kt:2148-2159 | only outside; sets tintColor and then, as written, calls setFill(i, …) for every row of the array, so the rows get the fill colour; without perVertexStyles each row adds a PER_VERTEX_UNSUPPORTED warning instead |
| Shape.PShape.SetStrokeAt | core/src/processing/core/PShape.kt:2240-2259 | only outside and with perVertexStyles; the row reads back the stroke colour |
| Shape.PShape.SetStrokeColor | core/src/processing/core/PShape.kt:2224-2235 | only outside; strokeColor, and with perVertexStyles every row of the vertex array, which then reads back the colour; no warning, since every row it visits exists |
| Shape.PShape.SetStrokeWeightAt | core/src/processing/core/PShape.kt:2283-2299 | only outside and with perVertexStyles |
| Shape.PShape.SetStrokeWeight | core/src/processing/core/PShape.kt:2270-2281 | only outside; strokeWeight, and with perVertexStyles every row in use (the first mvertexCount); the warnings gain one NO_SUCH_VERTEX per row in use past the array |
| Shape.PShape.SetAmbientAt | core/src/processing/core/PShape.kt:2343-2357 | only outside; the row reads back the opaque colour |
| Shape.PShape.SetAmbientColor | core/src/processing/core/PShape.kt:2330-2341 | only outside; ambientColor, and every row of the vertex array (the loop runs over `vertices.indices`), which then reads back the opaque colour; no warning, since every row it visits exists |
| Shape.PShape.SetSpecularAt | core/src/processing/core/PShape.kt:2384-2398 | only outside; the row reads back the opaque colour |
| Shape.PShape.SetSpecularColor | core/src/processing/core/PShape.kt:2371-2382 | only outside; specularColor, and every row of the vertex array, which then reads back the opaque colour; no warning, since every row it visits exists |
| Shape.PShape.SetEmissiveAt | core/src/processing/core/PShape.kt:2425-2440 | only outside; the row reads back the opaque colour |
| Shape.PShape.SetEmissiveColor | core/src/processing/core/PShape.kt:2412-2423 | only outside; emissiveColor, and every row of the vertex array, which then reads back the opaque colour; no warning, since every row it visits exists |
| Shape.PShape.SetShininessAt | core/src/processing/core/PShape.kt:2465-2478 | only outside; the row's shininess |
| Shape.PShape.SetShininess | core/src/processing/core/PShape.kt:2452-2463 | only outside; shininess, and every row of the vertex array; no warning, since every row it visits exists |
| Shape.PShape.GetParams | core/src/processing/core/PShape.kt:1808-1819 | NPE without params; otherwise a copy of the params, in the target array when its size matches and in a fresh one otherwise |
| Shape.PShape.GetParam | core/src/processing/core/PShape.kt:1821-1823 | `mparams!![index]`: NPE without params, IOOBE out of range, else that value |
| Shape.PShape.SetParams | core/src/processing/core/PShape.kt:1825-1834 | allocates the params on first use; a source of the wrong size only warns; otherwise the params become the source |
| Shape.PShape.SetPath | core/src/processing/core/PShape.kt:1836-1854 | setPath() replaces rows, codes and counts as the setPath function says |
| Shape.PShape.CopyRows | core/src/processing/core/PShape.kt:1846-1848 | the copy loop, as the copy function says |
| Shape.PShape.GetVertexCodes | core/src/processing/core/PShape.kt:2480-2488 | null without codes; the codes themselves when full; otherwise a fresh array of the first mvertexCodeCount entries replaces them; a negative count throws NegativeArraySizeException and one past the end IOOBE, leaving the codes |
| Shape.PShape.GetVertexCode | core/src/processing/core/PShape.kt:2497-2499 | NPE without codes, IOOBE out of range, else that code |
| Shape.PShape.GetVertexCount | core/src/processing/core/PShape.kt:1862-1867 | returns mvertexCount, warning for a GROUP or a PRIMITIVE |
| Shape.PShape.LoadImage | core/src/processing/core/PShape.kt:1586-1604 | NPE without a path; otherwise, as written, a `data:image` path decodes its payload with parseHexBinary, whose NumberFormatException or IllegalArgumentException propagates and leaves image and imagePath as they were; a `file://` path loads through the loader; imagePath is cleared whenever the call returns |
| Shape.PShape.DrawPath | core/src/processing/core/PShape.kt:1498-1584 | the drawPath loops emit exactly the path replay function's calls |
| Shape.PShape.CodeLoop | core/src/processing/core/PShape.kt:1516-1582 | the loop over the codes leaves the calls, index, contour flag and exception of the replay function |
| Shape.PShape.PathStep | core/src/processing/core/PShape.kt:1520-1579 | one `when` arm of the code loop, as the step function says; a 3D quadratic reuses the first point's Z |
| Shape.PShape.DrawGeometry | core/src/processing/core/PShape.kt:1425-1443 | the drawGeometry loops emit exactly the geometry trace |
| Shape.PShape.Draw | core/src/processing/core/PShape.kt:1316-1322 | an invisible shape emits nothing; otherwise pre(), drawImpl() and post(), as the node trace says, with a pending image loaded as written |
| Shape.PShape.DrawImpl | core/src/processing/core/PShape.kt:1327-1339 | dispatch by family: children for a GROUP, drawPrimitive, drawGeometry, drawPath; the image is loaded, as written, only for a textured RECT |
| Hierarchy.Slot | core/src/processing/core/PShape.kt:1682-1685 | `mchildren!![i]!!` succeeds iff the array exists, i is in range and the slot is not null (see also line 1699) |
| Hierarchy.Root | core/src/processing/core/PShape.kt:1710-1714 | the walk up the parents ends at a shape without a parent, or overflows the stack on a cycle (see also lines 1781-1787) |
| Hierarchy.RootKeptByParents | core/src/processing/core/PShape.kt:1780-1789 | changing anything but the parents leaves the root |
| Hierarchy.NamedWithin | core/src/processing/core/PShape.kt:1780-1789 | addName keeps the arena well formed |
| Hierarchy.FindAtRoot | core/src/processing/core/PShape.kt:1709-1715 | findChild is getChild evaluated at the root |
| Hierarchy.LookupSound | core/src/processing/core/PShape.kt:1690-1703 | a shape that getChild(name) finds is named so, or is registered under that name somewhere |
| Hierarchy.FirstHitSpec | core/src/processing/core/PShape.kt:1690-1703 | the first answer along a walk is null iff no shape on it answers, else the answer of a shape none of whose predecessors answers |
| Hierarchy.FirstHitAppend | core/src/processing/core/PShape.kt:1698-1701 | the first answer along two joined walks is that of the first walk, or failing it that of the second |
| Hierarchy.LookupFirstHit | core/src/processing/core/PShape.kt:1690-1703 | when the walk below ends normally, getChild(target) is the first depth-first answer: the shape itself, its table's entry, then its children in slot order |
| Hierarchy.LookupFromFirstHit | core/src/processing/core/PShape.kt:1698-1701 | the child loop of getChild answers with the first answer along the walks of the remaining children |
| Hierarchy.LookupFacts | core/src/processing/core/PShape.kt:1690-1703 | getChild is sound, and when the walk ends normally, it is the first depth-first answer |
| Hierarchy.LookupNullExactly | core/src/processing/core/PShape.kt:1690-1703 | when the walk below ends normally, getChild(target) is null exactly when no reached shape is named target and no reached table holds target |
| Hierarchy.Lookup | core/src/processing/core/PShape.kt:1690-1703 | getChild(target): itself when named target, else its own table's entry, else the first child in slot order that finds it; the overflow of a cycle is StackOverflowError |
| Hierarchy.Find | core/src/processing/core/PShape.kt:1709-1715 | findChild(target): the parents are followed to the eldest, which runs getChild(target) |
| Hierarchy.Reach | core/src/processing/core/PShape.kt:495-532 | the shapes enableStyle()/disableStyle() reach, in order: the shape, then each child's walk in slot order, and the exception that stops the walk |
| Hierarchy.Contains | core/src/processing/core/PShape.kt:2509-2549 | contains(x, y): a PATH answers by its own point test, a GROUP asks its children in slot order until one says true, any other family throws |
| Hierarchy.TreeTrace | core/src/processing/core/PShape.kt:1316-1345 | draw() on a shape over a snapshot of every shape, a GROUP drawing its children in slot order |
| Hierarchy.Named | core/src/processing/core/PShape.kt:1780-1789 | addName(nom, shape): the name goes into the root's table, which is made when missing |
| Hierarchy.FindsNamed | core/src/processing/core/PShape.kt:1709-1715 | after addName(nom, s) at a shape, findChild(nom) from that shape returns s, unless the root itself is named nom (see also lines 1780-1789) |
| Hierarchy.ShiftedUp | core/src/processing/core/PShape.kt:1747-1749 | the shift up keeps the array length |
| Hierarchy.ShiftedDown | core/src/processing/core/PShape.kt:1767-1769 | the shift down keeps the array length |
| Hierarchy.Room | core/src/processing/core/PShape.kt:1724-1729 | after the room test there is a free slot past childCount (see also lines 1742-1744) |
| Hierarchy.RoomFits | core/src/processing/core/PShape.kt:1724-1729 | the room test keeps the children in use and the arena's indices |
| Hierarchy.InsertKeepsOrder | core/src/processing/core/PShape.kt:1740-1757 | insertion at idx gives the children before idx, then who, then the rest in order |
| Hierarchy.RemoveKeepsOrder | core/src/processing/core/PShape.kt:1762-1775 | removal at idx keeps the others in their relative order |
| Hierarchy.AppendedWithin | core/src/processing/core/PShape.kt:1723-1735 | appending a child keeps the links well formed |
| Hierarchy.InsertedWithin | core/src/processing/core/PShape.kt:1740-1757 | inserting a child keeps the links well formed |
| Hierarchy.RemovedWithin | core/src/processing/core/PShape.kt:1762-1775 | removing a child keeps the links well formed |
| Hierarchy.AdoptedLinked | core/src/processing/core/PShape.kt:1731 | setting `who.parent` keeps the arena well formed (see also line 1752) |
| Hierarchy.ReachCloses | core/src/processing/core/PShape.kt:495-532 | the style walk without an error reaches the start and every child in use of every shape it reaches |
| Hierarchy.GroupContainsAny | core/src/processing/core/PShape.kt:2509-2549 | a group that answers contains() without throwing answers true exactly when some child in use does |
| Hierarchy.TreeBalanced | core/src/processing/core/PShape.kt:1316-1345 | drawing a tree without an exception is bracketed on both stacks: no pop before its push, every push popped |
| Hierarchy.GroupBalanced | core/src/processing/core/PShape.kt:1341-1345 | drawGroup's children, drawn in slot order, are bracketed on both stacks |
| Hierarchy.NamesOf | core/src/processing/core/PShape.kt:1690-1703 | the names of the arena's shapes, in order |
| Hierarchy.FamiliesOf | core/src/processing/core/PShape.kt:2509-2549 | the families of the arena's shapes, in order |
| Hierarchy.Forest.constructor | core/src/processing/core/PShape.kt:366-368 | an empty, well-formed arena |
| Hierarchy.Forest.Adopt | core/src/processing/core/PShape.kt:366-435 | a new shape joins the arena without parent, children or names |
| Hierarchy.Forest.AddName | core/src/processing/core/PShape.kt:1780-1789 | the name is registered in the root's table only, creating the table if need be |
| Hierarchy.Forest.AddChild | core/src/processing/core/PShape.kt:1723-1735 | who goes into slot childCount of a grown array and the count increments; then who's parent is set to this shape and its name is registered; a null who throws NPE after the store |
| Hierarchy.Forest.Register | core/src/processing/core/PShape.kt:1731-1734 | the shared tail: who's parent becomes this shape first, then its name goes to the table of the root found through that new link (see also lines 1753-1756) |
| Hierarchy.Forest.AddChildAt | core/src/processing/core/PShape.kt:1740-1757 | idx >= childCount changes nothing; NPE without a children array; otherwise slots idx..childCount-1 shift up into a grown array and who goes at idx, then is registered and adopted; a negative idx shifts and then throws IOOBE when it reads slot -1 |
| Hierarchy.Forest.ShiftUp | core/src/processing/core/PShape.kt:1747-1749 | the `downTo` loop, as the shift function says |
| Hierarchy.Forest.RemoveChild | core/src/processing/core/PShape.kt:1762-1775 | idx >= childCount changes nothing; otherwise NPE without a children array (the `mchildren!!` of the loop), then IOOBE for a negative idx; otherwise the rest shift down and the count decrements; a null slot then throws NPE; the child's name leaves only this shape's own table, and its parent is kept |
| Hierarchy.Forest.ShiftDown | core/src/processing/core/PShape.kt:1767-1769 | the removal loop, as the shift function says |
| Hierarchy.Forest.GetChildIndex | core/src/processing/core/PShape.kt:1794-1801 | the first slot in use holding who, or -1 iff there is none |
| Hierarchy.Forest.Crop | core/src/processing/core/PShape.kt:1656-1661 | the children array is cut to childCount; NPE without one |
| Hierarchy.Forest.GetChildren | core/src/processing/core/PShape.kt:1663-1666 | crop(), then the children array |
| Hierarchy.Forest.GetChildAt | core/src/processing/core/PShape.kt:1682-1685 | `mchildren!![index]`: NPE without an array, IOOBE out of range |
| Hierarchy.Forest.GetChild | core/src/processing/core/PShape.kt:1690-1703 | a shape named target finds itself; else the entry of its own table wins before any child; when the walk below ends normally, the answer is the first depth-first shape named target or whose table holds target; any shape found is named target or registered under it |
| Hierarchy.Forest.FindChild | core/src/processing/core/PShape.kt:1709-1715 | getChild at the root (or the stack overflow of a parent cycle); what it finds is named or registered so |
| Hierarchy.Forest.ContainsPoint | core/src/processing/core/PShape.kt:2509-2549 | a PATH answers by its own point test; a GROUP answers true iff some child does; any other family throws IllegalArgumentException |
| Hierarchy.Forest.SetStyle | core/src/processing/core/PShape.kt:495-532 | the shapes the walk reaches get the style, all others keep theirs, and the walk's exception is returned |
| Hierarchy.Forest.EnableStyle | core/src/processing/core/PShape.kt:527-532 | style set on the shape and on every descendant it reaches |
| Hierarchy.Forest.DisableStyle | core/src/processing/core/PShape.kt:495-500 | style cleared on the shape and on every descendant it reaches |

## Left out

- The renderer `PGraphics` is an event log. What its calls do is not modelled.
- Bitmap decoding (`BitmapFactory`, `PImage`, `checkAlpha`) and `g.parent.loadImage` are the injected `loader`. The data URL's bytes become an image without decoding.
- `PApplet.expand`, `subset` and `arrayCopy` are given contracts (`Shape.Expand`, `VertexStore.Grown`, the copy functions) instead of bodies.
- `PMatrix2D`/`PMatrix3D` arithmetic is not modelled. A matrix is its kind plus the operations applied since the last reset. The normalisation of a rotation axis in `rotate(angle, v0, v1, v2)` is not modelled either.
- Floating point is idealised as reals:
  - no NaN, infinity or rounding;
  - colour maxima that are divided by must be non-zero (`Color.Defined`), since the source would compute NaN or infinity there;
  - the truncation of `Float.toInt()` is exact.
- Shape.PShape.Fill, Stroke, Tint, Ambient, Specular, Emissive: with a colour maximum of 0, these require that maximum not to be divided by, because NaN is not modelled.
- Counters (`mvertexCount`, `mvertexCodeCount`, `childCount`) are unbounded. Their 32-bit wrap-around is not modelled.
- Rows of `vertices` are values. Aliasing between a row and a `FloatArray` held by the caller is not modelled. The same holds for the sources of `setPath()` and `setParams()`.
- Shape.PShape.GetParams: aliasing between the returned array and `mparams` is not modelled beyond the fresh-or-target choice.
- The depth of the walks over the hierarchy is bounded by fuel equal to the arena's size. Running out is modelled as `StackOverflowError`, which is what a parent or child cycle does in the source. The model does not prove that only a cycle can run out.
- Hierarchy.TreeTrace draws over a snapshot of every shape's drawing state. Images loaded by textured rectangles inside a group are not written back, whereas `Shape.PShape.Draw` writes them back for one node.
- The ray-casting body of `contains()` is the injected per-PATH test `hit`. Only the family dispatch is modelled, because the body is floating-point geometry.
- `createShape` and `copy*`, the empty stub overloads (`vertex(x,y,u,v)`, `normal`, `attrib*`, `curveVertex`, `bezierDetail`, the 3D `bezierVertex`/`quadraticVertex`), `getWidth`/`getHeight`/`getDepth`, `RotationHandler.kt` and the Gradle build files are not part of this model. They are factory glue, foreign calls or empty bodies.
- Shape.PShape.QuadraticVertex, BezierVertex: when `mvertexCodes` is null the source throws NullPointerException at the `!!`. The model keeps that as an `Outcome` rather than a precondition, so the path is still covered.
- Shape.PShape.GetFill, GetTint, GetStroke, GetStrokeWeight, GetAmbient, GetSpecular, GetEmissive, GetShininess: the NO_SUCH_VERTEX warning a getter prints is not recorded, because a function cannot append to the warning log.
- ImageSource.HexDigit, ImageSource.ParseHexBinary: only ASCII 0-9, a-f and A-F are hex digits. `Character.digit` behind `toInt(16)` also accepts the other Unicode decimal digits and the fullwidth Latin letters, which this model rejects with NumberFormatException.
- A null renderer `g` is not modelled. Every call is taken to reach a renderer. In the source the `g?.` calls are skipped, and `g!!.rectMode`, `ellipseMode` and `imageMode` throw NullPointerException (lines 1372, 1377, 1395 and 1401).

## Findings

| source | as written | input that shows it | evidently intended | confidence | as-written member | corrected member |
|---|---|---|---|---|---|---|
| core/src/processing/core/PShape.kt:1606-1613 | `loadBase64Image()` splits on `;base64,` and then decodes the payload with `parseHexBinary`, a Base16 decoder (section 8 of RFC 4648) | `data:image/png;base64,iVBORw0KGgo=`, the data URL of the PNG signature: `iV` is not hex, so NumberFormatException | decode the payload as Base64 (section 4 of RFC 4648), as the marker says and as the commented-out `parseBase64Binary` line did | not executed | ImageSource.SourceAsWritten (ImageSource.AsWrittenRejectsPngUrl) | ImageSource.SourceOf (ImageSource.CorrectedDecodesPngUrl, ImageSource.DataUrlRoundTrip) |
