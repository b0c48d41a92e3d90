# Verified models of algorithms in the Arduino and Processing fork and its libraries

Each module follows one algorithm of the repository, in the form the code has: loops over arrays and fields as methods of
classes, expressions as functions. What a method computes is stated by a function, and what that function promises is
proved in lemmas. `dafny verify dfyconfig.toml` checks everything.

| module | algorithm |
|---|---|
| `Json`, `JsonReader`, `JsonProofs`, `JsonSpellings` | the JSON printer, and the reader with its explicit stack of lists, dictionaries and pending keys |
| `Targa`, `TargaProofs` | the run-length encoder of TGA images with its step back, and the reader |
| `Rows` | the rows of an image, turned over |
| `TextWrap`, `TextWrapShortest` | greedy word wrapping with an index that jumps back, and that no layout is shorter |
| `Hqvga` | Bresenham lines that stop on address equality, and overlap-safe moves of rectangles |
| `Gameduino`, `GameduinoFormat` | the bit reader and LZ unpacker, and the bit format it reads |
| `Screenshot` | the scheduler of screenshot lines over a bitmap, and its zero runs |
| `Sid`, `SidProofs`, `SidPrograms` | stack and arithmetic of the 6502 in the SID player, and programs of its instructions |
| `Spline`, `SplineProofs` | Bezier and Catmull-Rom curves by forward differences, and their slopes |
| `Pixels`, `BlurKernel`, `Blur`, `BlurProofs` | the separable blur of packed pixels, with int overflow |
| `Bilinear`, `Blit`, `BlitProofs`, `BlitInPlace` | fixed-point bilinear filtering, and the clipped scaling copy, from another image or within one |
| `PtPlay`, `PtPlayer`, `PtPlayProofs`, `PtPlayCommands` | rows, ticks, mixing and clock of the ProTracker player, and what its commands lead to |
| `SdWalk` | the path walk with two handles |
| `Arithmetic`, `Ints`, `Wrappers` | least and greatest, products and quotients; the ints of Java; a value that may be missing |

Where the code does not keep a promise that it or its documentation makes, the model follows the code, and a lemma says
exactly when the promise is kept:

- A single-digit number at the very end of the JSON source is taken for an unfinished one (`RoundTrip`), and the
  characters 0x1A to 0x1F are printed as they are, against section 7 of RFC 8259 (`ControlsEscaped`). The reader wants a sign
  in every exponent (`ExponentNeedsSign`), and does not look at commas, colons and kinds of closing brackets (`MarksIgnored`).
- `saveTGA` keeps the low 16 bits of the sides (`SaveLoad`). A run that reaches the end of the image is written as plain
  packets of one pixel each, but for the last three (`UniformSaved`). On a stream whose packets announce too few pixels the
  reader loops forever, unless an int does not count those of the header (`HangsExactlyWhenShort`, `HugeHeaderThrows`).
- The reader takes `reversed` for an image whose upper row comes first. It turns over packed images that are not, and plain
  images that are: the same pixels make two images, upside down to each other (`PlainUpsideDown`).
- The 256th push onto the emulated stack is lost (`PushStacks`), and a routine that comes to address 0 before its RTS leaves
  the loop of `cpuJSR` too soon (`JsrLoopEnds`, `LoopKept`). The overflow flag of ADC is that of a signed sum exactly when the
  two bytes have the same sign (`OverflowMeans`).
- The blur divides by zero when the image is no higher than the radius (`BlurRGB`). For radii from 233 on its sums overflow,
  exactly for the sizes of `SizeFits`: in the row pass it then throws, in the column pass the channels bleed into each other
  (`BlurredChannels`). Near the top it leaves rows out of its window when the image is less than twice as high as the radius
  (`ColumnWindowIsWhole`).
- A scaling copy samples sides of more than 65537 texels at negative positions (`SamplesFit`): it throws, or reads other
  texels (`CopiesRead`, `BlitResize`).
- `blend` copies within one image without an intermediate copy when the rectangles do not intersect. A target that is cut on
  the left or at the top can still be drawn from cells that have been drawn before (`CutTargetSmears`); when it is not is
  said by `FreshByAxes`, and for copies that keep the size by `SameSizeInPlace`.
- A scaled copy makes every channel darker by at least one, also at its own size (`SameSizeDarkens`), and a target that
  is cut on the left is sampled from the left edge of the image (`ClipKeepsSamples`).
- A channel of a module that comes to the end of its sample takes the pass of another: the last channel is left out of that
  output sample, and after a second end the one before it too (`MixIsSum`). Fine slides are not held within the periods
  that can be played (`FineSlideLeads`): at a period of 0 the frequency is a division by zero.
- Path components of more than 12 characters are cut into several (`JoinSplit`).

A line of a screenshot is made of words below 0x8000, as the screen delivers them: exactly such lines come back
(`LineComesThrough`).

## Model

| member | source | states |
|---|---|---|
| `JsonProofs.RoundTrip` | libraries/BitCoin_Miner/jsonrpc/json.py:79-228 | `loads(dumps(v)) == v` for every tree of null, booleans, integers, strings, lists and dictionaries, if and only if v is not a single-digit number |
| `JsonProofs.SpacedRoundTrip` | libraries/BitCoin_Miner/jsonrpc/json.py:123-228 | the same with any run of spaces, tabs and line ends before, between and after the tokens; a single digit is read back exactly when some space follows it |
| `JsonProofs.TokensDeliver` | libraries/BitCoin_Miner/jsonrpc/json.py:82-116 | in any stack, reading the tokens of a value does what handing over the finished value does: the recursive printer against the reader with its explicit stack |
| `JsonProofs.EntryFills` | libraries/BitCoin_Miner/jsonrpc/json.py:94-101 | a key waits on the stack for its value, which then goes into the dictionary below it |
| `JsonProofs.EscapedScans` | libraries/BitCoin_Miner/jsonrpc/json.py:67-77 | what `escapeChar` has made of any string is read back as that string, whatever follows |
| `JsonProofs.TokenLexes` | libraries/BitCoin_Miner/jsonrpc/json.py:137-211 | each printed token is read back as one token, with exactly its own characters taken; only a number at the end leaves its last digit behind |
| `JsonProofs.LoadRunsTokens` | libraries/BitCoin_Miner/jsonrpc/json.py:130-226 | on separated tokens, with any gaps, the reader does what the tokens do one after the other |
| `JsonProofs.TokensSeparated` | libraries/BitCoin_Miner/jsonrpc/json.py:82-118 | the printer never writes two scalars side by side |
| `JsonProofs.DumpsIsFlat` | libraries/BitCoin_Miner/jsonrpc/json.py:79-118 | the generator of parts writes the spelling of the tokens, one after the other |
| `JsonProofs.ControlsEscaped` | libraries/BitCoin_Miner/jsonrpc/json.py:67-77 | a printed string is free of raw control characters, as section 7 of RFC 8259 asks for, if and only if the string holds none of 0x1A to 0x1F |
| `JsonProofs.ActKeepsKeysOnDicts` | libraries/BitCoin_Miner/jsonrpc/json.py:213-226 | every turn keeps a waiting key right above an open dictionary, and fails with no type error |
| `JsonProofs.LoadNeverTypeErrors` | libraries/BitCoin_Miner/jsonrpc/json.py:123-228 | on no source at all does `stack[-1][key] = value` meet anything but a dictionary |
| `JsonSpellings.LiteralLoads` | libraries/BitCoin_Miner/jsonrpc/json.py:137-156 | a string literal loads as its string in every spelling of its characters: as they are, by a short escape, or by four hexadecimal digits in either case |
| `JsonSpellings.LiteralScans` | libraries/BitCoin_Miner/jsonrpc/json.py:137-156 | the same of a literal in front of any text: exactly the literal is taken |
| `JsonSpellings.ScannedIsLiteral` | libraries/BitCoin_Miner/jsonrpc/json.py:137-156 | nothing else is read as a string: what is taken is such a literal of what is returned |
| `JsonSpellings.CodeScans` | libraries/BitCoin_Miner/jsonrpc/json.py:147-149 | a code of four characters is read as the number whose digits, from the left, they spell, and as no other |
| `JsonSpellings.ShortScans` | libraries/BitCoin_Miner/jsonrpc/json.py:35-43 | the short escapes are those of section 7 of RFC 8259, and no others |
| `JsonSpellings.PrintedForm` | libraries/BitCoin_Miner/jsonrpc/json.py:67-77 | a character that has a short form is printed in it, any other one up to 0x19 by its code in lower-case digits, and the rest as they are |
| `JsonSpellings.NumberScans` | libraries/BitCoin_Miner/jsonrpc/json.py:169-198 | digits are read as what they are worth by their places, with leading zeros and a sign; a single one that ends the source fails |
| `JsonSpellings.FloatScans` | libraries/BitCoin_Miner/jsonrpc/json.py:177-197 | a float is read as its own literal, with exactly its characters taken, if and only if it has digits in the mantissa and in the exponent, if it has one; otherwise it fails |
| `JsonSpellings.SignFails` | libraries/BitCoin_Miner/jsonrpc/json.py:169-197 | a minus without digits fails |
| `JsonSpellings.ExponentNeedsSign` | libraries/BitCoin_Miner/jsonrpc/json.py:186-194 | an exponent without a sign fails |
| `JsonSpellings.AssignMeans` | libraries/BitCoin_Miner/jsonrpc/json.py:219-222 | a key that comes again gets the later value; all other keys keep theirs |
| `JsonSpellings.MarksIgnored` | libraries/BitCoin_Miner/jsonrpc/json.py:157-168 | commas and colons are ignored, and either closing bracket closes either kind |
| `JsonSpellings.TokensSpelled` | libraries/BitCoin_Miner/jsonrpc/json.py:82-118 | the marks and words that are printed |
| `JsonReader.ReadEscape` | libraries/BitCoin_Miner/jsonrpc/json.py:142-151 | the branch for an escape, with its four hexadecimal digits and its failures |
| `JsonReader.ReadString` | libraries/BitCoin_Miner/jsonrpc/json.py:137-156 | the loop over a string: its value, its end, or the failure it meets |
| `JsonReader.ReadNumber` | libraries/BitCoin_Miner/jsonrpc/json.py:169-198 | the branch for a number: what is taken, what it is worth, and which character is looked at again |
| `JsonReader.ReadKeyword` | libraries/BitCoin_Miner/jsonrpc/json.py:200-209 | the branch for a keyword |
| `JsonReader.NextNonSpace` | libraries/BitCoin_Miner/jsonrpc/json.py:131-136 | white space is skipped, the character looked at again included |
| `JsonReader.Store` | libraries/BitCoin_Miner/jsonrpc/json.py:213-225 | the end of a turn: a value goes into the list, waits as a key, or goes under the key that waits |
| `JsonReader.Loads` | libraries/BitCoin_Miner/jsonrpc/json.py:123-228 | the loop over the mixed stack computes `Load`, for every source: value or failure |
| `TargaProofs.SaveLoad` | core/methods/demo/PImage.java:2556-2681 | reading what `saveTGA` wrote gives the same size and pixels (low byte for ALPHA, opaque for RGB, exact for ARGB) if and only if both sides are below 65536 |
| `TargaProofs.PacketsTile` | core/methods/demo/PImage.java:2593-2681 | the packets hold the pixels of the image one after the other, 1 to 128 each, and no run packet holds just one: also after the step back by two |
| `TargaProofs.FirstPacketTiles` | core/methods/demo/PImage.java:2594-2625 | the next packet holds the next pixels |
| `TargaProofs.RunEndMeans` | core/methods/demo/PImage.java:2598-2604 | the search for a run stops at the first other pixel, at 128 pixels or at the end, and not before |
| `TargaProofs.FirstPacketMeans` | core/methods/demo/PImage.java:2594-2625 | a run is written if and only if the next two pixels are equal, unless all that is left is 128 equal pixels or fewer; it takes all pixels up to the first other one, but no more than 128; a plain packet ends with the image, at 128 pixels, or two pixels before the first repeat after the third |
| `TargaProofs.PlainEndUnique` | core/methods/demo/PImage.java:2610-2620 | there is one such end only |
| `TargaProofs.UniformSaved` | core/methods/demo/PImage.java:2593-2625 | the packets of an image of one color, of any size: runs of 128 pixels while there are more, and then no run, but packets of one pixel each until three are left |
| `TargaProofs.UniformCounts` | core/methods/demo/PImage.java:2593-2625 | 128 equal pixels take 126 packets, and 129 take two |
| `TargaProofs.PixelPlaces` | core/methods/demo/PImage.java:2586-2681 | the bytes of a pixel are written lowest first |
| `TargaProofs.AssembledBytes` | core/methods/demo/PApplet.java:3925-3972 | a pixel that is read holds its bytes at their places, and ones where the stream has ended |
| `TargaProofs.HeaderKnown` | core/methods/demo/PApplet.java:3815-3862 | no header is taken but those that say so in the bytes looked at |
| `TargaProofs.PacketReads` | core/methods/demo/PApplet.java:3925-3972 | one packet is read back, with exactly its bytes taken |
| `TargaProofs.PacketsRead` | core/methods/demo/PApplet.java:3925-3973 | any list of packets is read back, whatever follows it |
| `TargaProofs.HeaderReads` | core/methods/demo/PApplet.java:3830-3862 | the reader takes the format from the written header, and the sides modulo 2 to the 16; from 2 to the 31 pixels on it throws |
| `TargaProofs.TurnAtEnd` | core/methods/demo/PApplet.java:3925-3972 | at the end of the stream a turn of the loop writes nothing, and leaves index and stream as they were |
| `TargaProofs.StuckForever` | core/methods/demo/PApplet.java:3925-3973 | so no number of further turns ends the loop |
| `TargaProofs.LoadIsLimit` | core/methods/demo/PApplet.java:3801-3987 | watched for any number of turns the reader either has not ended or ends as `Load` says; it has ended after as many turns as the stream has bytes, unless it never does |
| `TargaProofs.HangsExactlyWhenShort` | core/methods/demo/PApplet.java:3801-3987 | of all streams the reader does not end, within any number of turns, on exactly those with a run-length header of less than 2 to the 31 pixels whose packets announce fewer pixels than the header |
| `TargaProofs.HugeHeaderThrows` | core/methods/demo/PImage.java:191 | a header of 65535 by 65535 pixels alone makes the reader throw at once |
| `TargaProofs.PlainUpsideDown` | core/methods/demo/PApplet.java:3864-3983 | the same pixels under the same header, once packed and once plain, are loaded upside down to each other, and so as one image if and only if they are the same upside down |
| `TargaProofs.ShortStreamHangs` | core/methods/demo/PApplet.java:3925-3973 | the packets of an image behind a header that asks for more pixels are such a stream, if an int counts these; otherwise the reader throws |
| `Targa.FindRun` | core/methods/demo/PImage.java:2595-2604 | the search for a run, and that a run is only taken when it ends before the image does |
| `Targa.FillChunk` | core/methods/demo/PImage.java:2610-2620 | the collection of a plain packet in the chunk buffer, which is cut short by two pixels before a repeat |
| `Targa.WritePacket` | core/methods/demo/PImage.java:2594-2625 | one turn of the writer: the bytes of the next packet, and progress by at least one pixel |
| `Targa.WritePackets` | core/methods/demo/PImage.java:2586-2681 | the loop of the writer: the bytes of all packets |
| `Targa.SaveTGA` | core/methods/demo/PImage.java:2556-2683 | header and packets |
| `Targa.FillRun` | core/methods/demo/PApplet.java:3945-3948 | a run is written into the pixels, and stops at their end |
| `Targa.FillPlain` | core/methods/demo/PApplet.java:3953-3969 | plain pixels are read into the pixels, and no others are changed |
| `Targa.ReadPacket` | core/methods/demo/PApplet.java:3926-3972 | one turn of the loop of the reader: the new index and what is left of the stream, or the exception; -1 for a byte past the end |
| `Targa.ReadPackets` | core/methods/demo/PApplet.java:3922-3973 | the loop of the reader, watched for so many turns |
| `Targa.LoadImageTGA` | core/methods/demo/PApplet.java:3801-3987 | header checks, allocation, both branches and the turning over of the rows, for every stream, watched for so many turns of the loop |
| `Targa.ReadUpward` | core/methods/demo/PApplet.java:3865-3895 | the loops over a plain image from its last row up: the pixels of the stream, upside down |
| `Rows.FlipRows` | core/methods/demo/PApplet.java:3975-3983 | the rows are turned over in place |
| `Rows.SwapRows` | core/methods/demo/PApplet.java:3979-3981 | three copies through a buffer let two rows change places |
| `Rows.NextFlipped` | core/methods/demo/PApplet.java:3977-3982 | one turn of the loop turns over one more row at either end |
| `Rows.FlippedRow` | core/methods/demo/PApplet.java:3977-3982 | row r of the rows turned over is the row as far from the end |
| `Rows.FlippedTwice` | core/methods/demo/PApplet.java:3977-3982 | rows that are turned over twice are as they were |
| `TextWrap.WrapOrdered` | core/methods/demo/PGraphics.java:2949-3012 | recorded lines are in order and disjoint, nothing but spaces lies between two of them, and on success they reach the end of the sentence |
| `TextWrap.WrapFits` | core/methods/demo/PGraphics.java:2958-3009 | every recorded line fits the box (a word-wrapped one without its final space), and is greedy: the next word, or the next character of a split word, would not fit |
| `TextWrap.WrapSucceeds` | core/methods/demo/PGraphics.java:2949-3012 | the sentence is laid out if and only if every character other than a space is no wider than the box |
| `TextWrapShortest.GreedyIsShortest` | core/methods/demo/PGraphics.java:2949-3012 | a layout succeeds if and only if there is one by the same rules, and then none has fewer lines |
| `TextWrapShortest.StaysAhead` | core/methods/demo/PGraphics.java:2958-3009 | a greedy line that starts no earlier than a line of any other layout is also followed no earlier |
| `TextWrap.Sentence.EndMeans` | core/methods/demo/PGraphics.java:2958-3009 | where a line ends: at the end of the sentence, between words, in a word, or not at all, and why |
| `TextWrap.TextWidthImpl` | core/methods/demo/PGraphics.java:2645-2652 | the width of a stretch of text is the sum of the widths of its characters |
| `TextWrap.BreakWord` | core/methods/demo/PGraphics.java:2977-2985 | stepping back through a word that is too wide finds the longest part of it that fits |
| `TextWrap.EatSpaces` | core/methods/demo/PGraphics.java:2970-2972 | spaces at the start of the next line are dropped |
| `TextWrap.LineBreaks.TextSentenceBreak` | core/methods/demo/PGraphics.java:3015-3023 | a line is recorded behind the others, in arrays that grow |
| `TextWrap.LineBreaks.BreakLine` | core/methods/demo/PGraphics.java:2963-2992 | the branch that breaks a line leads on to the layout of what is left |
| `TextWrap.LineBreaks.EndWord` | core/methods/demo/PGraphics.java:2960-3005 | the branches at the end of a word keep the layout on its way, and either the line or the index moves on although the index jumps back |
| `TextWrap.LineBreaks.TextSentence` | core/methods/demo/PGraphics.java:2949-3012 | the loop ends for every text, and records exactly the lines of `Wrap` |
| `Hqvga.Vga.DrawLine` | libraries/HQVGA/HQVGA.cpp:181-205 | the loop ends on address equality after max(dx, dy) moves, having painted the pixels of the line and no others |
| `Hqvga.LineDistinct` | libraries/HQVGA/HQVGA.cpp:190-204 | no two pixels of a line are one cell: each is painted once |
| `Hqvga.LineNearIdeal` | libraries/HQVGA/HQVGA.cpp:190-204 | every pixel is within half a unit of the ideal line |
| `Hqvga.LineInBox` | libraries/HQVGA/HQVGA.cpp:190-204 | every pixel is in the bounding box of the two ends |
| `Hqvga.LineNeighbours` | libraries/HQVGA/HQVGA.cpp:195-203 | each pixel is a neighbour of the next, straight or diagonal |
| `Hqvga.LineEnds` | libraries/HQVGA/HQVGA.cpp:188-189 | the line runs from one end to the other in max(dx, dy) moves |
| `Hqvga.LineIsNear` | libraries/HQVGA/HQVGA.cpp:195-203 | Bresenham stepping follows the rounded line: one step in the shorter direction at most |
| `Hqvga.LineStep` | libraries/HQVGA/HQVGA.cpp:195-203 | the two tests on the doubled error move on exactly to the next pixel of the line |
| `Hqvga.LastPixelIsEnd` | libraries/HQVGA/HQVGA.cpp:193-194 | the test for the end cannot hold before the last pixel |
| `Hqvga.Advance` | libraries/HQVGA/HQVGA.cpp:195-203 | one turn of the loop: error and pointer of the next pixel |
| `Hqvga.MovedCell` | libraries/HQVGA/HQVGA.cpp:94-122 | after the move each cell of the target holds what its cell of the source held before, overlapping or not |
| `Hqvga.MovedGap` | libraries/HQVGA/HQVGA.cpp:94-122 | cells outside the target are unchanged |
| `Hqvga.Vga.MoveArea` | libraries/HQVGA/HQVGA.cpp:94-122 | the move is a two-dimensional memmove, for any two rectangles of one size on the screen |
| `Hqvga.Vga.MoveBackward` | libraries/HQVGA/HQVGA.cpp:100-110 | the loop from the end is right when the target lies behind the source |
| `Hqvga.Vga.MoveForward` | libraries/HQVGA/HQVGA.cpp:112-121 | the loop from the start is right when the target does not lie behind the source |
| `Gameduino.FlashBits.Get1` | libraries/Gameduino/GD.cpp:350-358 | the next bit; after k bits the reader stands at byte k / 8 with mask 1 << (k % 8) |
| `Gameduino.FlashBits.GetN` | libraries/Gameduino/GD.cpp:359-366 | n bits as a number, the first one highest |
| `Gameduino.ReadTag` | libraries/Gameduino/GD.cpp:382 | the first bit of an item, and what it says about the bits after it |
| `Gameduino.CopyBytes` | libraries/Gameduino/GD.cpp:387-390 | a copy repeats what lies behind it, which it may have written itself |
| `Gameduino.CopyLooksBack` | libraries/Gameduino/GD.cpp:387-390 | every byte of a copy equals the one `distance` before it, also inside the copy |
| `Gameduino.UnpackItem` | libraries/Gameduino/GD.cpp:382-391 | one item: its bytes are written at the address, and exactly its bits are taken |
| `Gameduino.Uncompress` | libraries/Gameduino/GD.cpp:374-393 | the unpacker writes the reference expansion of the parsed stream at the address, and nothing else |
| `GameduinoFormat.ItemParses` | libraries/Gameduino/GD.cpp:382-386 | one item of the format is parsed back |
| `GameduinoFormat.ItemsParse` | libraries/Gameduino/GD.cpp:381-392 | any list of items of the format is parsed back |
| `GameduinoFormat.PackParses` | libraries/Gameduino/GD.cpp:376-392 | packing a header and items into bits and bytes, and unpacking them, gives them back |
| `GameduinoFormat.PackedUnpacks` | libraries/Gameduino/GD.cpp:374-393 | in the memory after `uncompress` on a packed list, each item is at the place that the sizes before it give: a literal is its value, every byte of a copy the one `distance` before it; nothing else has changed |
| `GameduinoFormat.ExpandMeans` | libraries/Gameduino/GD.cpp:381-392 | the same of the expansion of any items |
| `GameduinoFormat.Unpacks` | libraries/Gameduino/GD.cpp:374-393 | a packed list can be unpacked if and only if every copy reaches back into what is there and the sizes fit |
| `GameduinoFormat.BitsOfBytes` | libraries/Gameduino/GD.cpp:350-358 | bit k of a byte is (byte >> k) & 1, and the bits of the bytes follow each other |
| `GameduinoFormat.ValueByPlaces` | libraries/Gameduino/GD.cpp:359-366 | a number is the sum of its bits at their places, the first one highest |
| `Screenshot.FindPending` | libraries/Gameduino/GD.cpp:306-308 | the search ends and finds the first pending line from 7 ahead of the raster on |
| `Screenshot.MarkDone` | libraries/Gameduino/GD.cpp:312 | one bit of the bitmap is cleared, and with it exactly that line is no longer pending |
| `Screenshot.SendLine` | libraries/Gameduino/GD.cpp:320-338 | the bytes of a line with its runs of zeros compressed |
| `Screenshot.SendLines` | libraries/Gameduino/GD.cpp:304-339 | for any raster positions the loop ends after 300 lines; `nundone` counts the pending ones |
| `Screenshot.TakeScreenshot` | libraries/Gameduino/GD.cpp:290-341 | every line is sent exactly once, each as the next one ahead of the raster at that time |
| `Screenshot.LineRestores` | libraries/Gameduino/GD.cpp:319-338 | words below 0x8000 come back from the compressed line, whatever follows it |
| `Screenshot.LineComesThrough` | libraries/Gameduino/GD.cpp:319-338 | a line comes back if and only if all its words are below 0x8000, and it takes 400 words at most |
| `Screenshot.DumpReceived` | libraries/Gameduino/GD.cpp:290-341 | from the bytes of a dump a receiver gets the number of the frame and the whole screen, whatever the raster did meanwhile |
| `Screenshot.ScreenReceived` | libraries/Gameduino/GD.cpp:300-339 | a receiver that undoes the runs of zeros gets the whole screen, in whatever order the lines came |
| `Screenshot.SlowRaster` | libraries/Gameduino/GD.cpp:304-308 | while the raster moves on by no more than one line for each line sent, the i-th line sent is (raster & 511) + 7 + i, modulo 300, of the raster at the start |
| `SidProofs.PushStacks` | libraries/SIDPlayer/tinysid.cpp:252-256 | a push stacks its byte if and only if the stack is not full; on a full stack the byte is lost |
| `SidProofs.PopUnstacks` | libraries/SIDPlayer/tinysid.cpp:258-262 | a pop takes the last byte off |
| `SidProofs.BalancedRun` | libraries/SIDPlayer/tinysid.cpp:502-610 | any balanced nesting of JSR/RTS, PHA/PLA and PHP/PLP, of any depth that fits, leaves the stack as it was |
| `SidProofs.CallReturns` | libraries/SIDPlayer/tinysid.cpp:502-610 | an RTS lands just after its JSR, with the stack pointer restored |
| `SidProofs.KeepARestores` | libraries/SIDPlayer/tinysid.cpp:550-566 | PLA brings back the accumulator of its PHA |
| `SidProofs.KeepPRestores` | libraries/SIDPlayer/tinysid.cpp:555-571 | PLP brings back the flags of its PHP |
| `SidProofs.RoutineReturns` | libraries/SIDPlayer/tinysid.cpp:693-711 | the RTS of the routine itself takes the two zeros: the program counter is 0 and the stack empty; at every instruction before, the two zeros are stacked |
| `SidProofs.JsrLoopEnds` | libraries/SIDPlayer/tinysid.cpp:706-709 | the loop of `cpuJSR` is left at the first instruction that leaves the program counter at 0; that is the RTS of the routine, with an empty stack, if and only if no instruction before does that, and otherwise the two zeros are still stacked |
| `SidProofs.LoopFollows` | libraries/SIDPlayer/tinysid.cpp:706-709 | watched for long enough, the loop goes through the run to its first zero |
| `SidProofs.ZeroByCommands` | libraries/SIDPlayer/tinysid.cpp:299-706 | a balanced run of modelled commands comes to address 0 if and only if one of them leads there: a call at 0xFFFD or of 0, or a command that ends at 0xFFFF |
| `SidProofs.LoopKept` | libraries/SIDPlayer/tinysid.cpp:706-709 | a routine of modelled commands keeps the loop going up to its own RTS if and only if it does not start at 0 and none of its commands leads there |
| `SidProofs.CallFromTheTopStops` | libraries/SIDPlayer/tinysid.cpp:502-510 | a call at 0xFFFD returns to 0, and the loop is left in the middle of the routine |
| `Sid.Cpu.CpuJsr` | libraries/SIDPlayer/tinysid.cpp:693-711 | `cpuJSR`: the start, and the loop watched for so many turns |
| `SidProofs.LoopRunsOn` | libraries/SIDPlayer/tinysid.cpp:706-709 | watched for less, it is still running, as far along the run as it was watched |
| `SidPrograms.AddProgramAdds` | libraries/SIDPlayer/tinysid.cpp:316-324 | the bytes of a program of LDA and ADC, placed in memory, add two numbers of n bytes, for every n: the sum modulo 256 to the n, and a carry that says whether it is more |
| `SidPrograms.SubtractProgramSubtracts` | libraries/SIDPlayer/tinysid.cpp:611-620 | a program of LDA and SBC subtracts, with a carry that says whether nothing was borrowed |
| `SidPrograms.AdcAt` | libraries/SIDPlayer/tinysid.cpp:316-324 | 69 v at the program counter, in any state: accumulator, carry, zero, negative and overflow flag, the bits of the flags that stay, and two bytes taken |
| `SidPrograms.SbcAt` | libraries/SIDPlayer/tinysid.cpp:611-620 | E9 v at the program counter: the accumulator less v and less what was borrowed, modulo 256, and a carry that says whether that is not negative |
| `SidPrograms.OverflowMeans` | libraries/SIDPlayer/tinysid.cpp:323 | the overflow flag is set if and only if the signed sum is out of range or the signs differ; so it says whether the signed sum is out of range if and only if the two bytes have the same sign |
| `SidPrograms.LdaAt` | libraries/SIDPlayer/tinysid.cpp:511-516 | A9 v: v is loaded, and the flags tell about it |
| `SidPrograms.PushAt` | libraries/SIDPlayer/tinysid.cpp:550-559 | 48 and 08: the accumulator or the flags are stacked |
| `SidPrograms.PullAt` | libraries/SIDPlayer/tinysid.cpp:560-571 | 68 and 28: the accumulator, with the flags that tell about it, or the flags are unstacked |
| `SidPrograms.JsrAt` | libraries/SIDPlayer/tinysid.cpp:502-510 | 20 low high: the address behind it is stacked, and the program goes on at 256 * high + low |
| `SidPrograms.RtsAt` | libraries/SIDPlayer/tinysid.cpp:604-610 | 60: the program goes on at the address unstacked |
| `Sid.Cpu.PushByte` | libraries/SIDPlayer/tinysid.cpp:252-256 | `push`, with its stop at the bottom |
| `Sid.Cpu.PopByte` | libraries/SIDPlayer/tinysid.cpp:258-262 | `pop`, with its stop at the top |
| `Sid.Cpu.JumpToSubroutine` | libraries/SIDPlayer/tinysid.cpp:502-510 | the JSR case |
| `Sid.Cpu.ReturnFromSubroutine` | libraries/SIDPlayer/tinysid.cpp:604-610 | the RTS case |
| `Sid.Cpu.AddByte` | libraries/SIDPlayer/tinysid.cpp:316-324 | the sum and the flags of the ADC case |
| `Sid.Cpu.CpuParse` | libraries/SIDPlayer/tinysid.cpp:299-324 | fetch and dispatch of the modelled instructions |
| `Spline.ThirdDifference` | core/methods/demo/PGraphics.java:2143-2152 | the second difference of a cubic grows by the same amount at every step |
| `Spline.DrawMatrixDifferences` | core/methods/demo/PGraphics.java:2143-2152 | the draw matrix yields the start and the three forward differences there, for any basis |
| `Spline.Plot` | core/methods/demo/PGraphics.java:1222-1226 | the three additions per vertex give the vertices of the cubic at j / detail, for every j; none for details of zero or less |
| `Spline.BezierOnCurve` | core/methods/demo/PGraphics.java:1880-1883 | these vertices are `bezierPoint` at j / detail |
| `Spline.SegmentOnCurve` | core/methods/demo/PGraphics.java:1987-1999 | these vertices are `curvePoint` at j / detail, for every tightness |
| `Spline.BezierEnds` | core/methods/demo/PGraphics.java:1222-1226 | the last vertex is the fourth control point |
| `Spline.SegmentsJoin` | core/methods/demo/PGraphics.java:1338-1365 | consecutive segments join at the shared vertex |
| `Spline.CurveEnds` | core/methods/demo/PGraphics.java:1987-1999 | `curvePoint` runs from the second to the third point, for every tightness |
| `SplineProofs.CurveIsHermite` | core/methods/demo/PGraphics.java:1987-1999 | `curvePoint` is at every t the cubic from its second to its third point with slopes of (1 - tightness) / 2 times the way between the points on both sides of each end |
| `SplineProofs.CurveSlopes` | core/methods/demo/PGraphics.java:2060-2063 | these are its derivatives at the two ends, as limits |
| `SplineProofs.SegmentsJoinSmoothly` | core/methods/demo/PGraphics.java:1338-1365 | consecutive segments join with one slope, for every tightness |
| `SplineProofs.DeCasteljau` | core/methods/demo/PGraphics.java:1880-1883 | `bezierPoint` goes t of the way between points that go t of the way between points that go t of the way between the control points |
| `SplineProofs.BezierSlopes` | core/methods/demo/PGraphics.java:1880-1883 | it leaves for its second control point and arrives from its third one, with three times the way as the slope |
| `SplineProofs.CubicHasSlope` | core/methods/demo/PGraphics.java:2143-2152 | the derivative of a cubic |
| `Spline.Shape.BezierDetail` | core/methods/demo/PGraphics.java:1911-1926 | the draw matrix belongs to the new detail |
| `Spline.Shape.CurveInit` | core/methods/demo/PGraphics.java:2051-2083 | basis and draw matrix belong to the new detail and tightness |
| `Spline.Shape.BezierVertex` | core/methods/demo/PGraphics.java:1203-1227 | the vertices of the Bezier curve are appended; without a vertex to start from it fails and changes nothing |
| `Spline.Shape.CurveVertexSegment` | core/methods/demo/PGraphics.java:1338-1365 | the vertices of the segment are appended, and the count of curve points is restored |
| `Spline.Shape.CurveVertex` | core/methods/demo/PGraphics.java:1287-1305 | a point is recorded, and from the fourth on a segment is drawn |
| `Ints.WrapStep` | core/methods/demo/PImage.java:1020-1023 | adding up in ints gives what an int holds of the exact sum |
| `Pixels.OrBits` | core/methods/demo/PImage.java:1062 | the bitwise or, on each bit by itself, of two's complement numbers of any length |
| `Pixels.PackKeeps` | core/methods/demo/PImage.java:1062 | bytes packed with shifts and ors do not run into each other |
| `Blur.Image.BlurRGB` | core/methods/demo/PImage.java:993-1068 | the blur in place: it divides by zero if and only if a non-empty image is no higher than the radius, it leaves the multiplication table if and only if the row pass leaves no byte somewhere, and otherwise every pixel is packed from the three channels that the two passes compute, bytes or not |
| `Blur.Image.BuildBlurKernel` | core/methods/demo/PImage.java:894-918 | the radius is held between 1 and 248, and kernel and table belong to it, whether built again or kept |
| `Blur.Image.FillKernel` | core/methods/demo/PImage.java:903-916 | the kernel filled from the middle outwards holds the square of what the distance leaves of the radius |
| `Blur.Image.SumRow` | core/methods/demo/PImage.java:1005-1025 | the inner loop of the row pass sums up the window of the row, as ints |
| `Blur.Image.BlurRows` | core/methods/demo/PImage.java:1003-1032 | the row pass |
| `Blur.Image.SumColumn` | core/methods/demo/PImage.java:1040-1061 | the inner loop of the column pass sums up its window, and needs bytes in it |
| `Blur.Image.ColumnAt` | core/methods/demo/PImage.java:1040-1062 | one pixel of the column pass, or the exception it ends in |
| `Blur.Image.BlurColumns` | core/methods/demo/PImage.java:1034-1067 | the column pass, or the exception it ends in |
| `BlurKernel.WeightsClosed` | core/methods/demo/PImage.java:906-916 | the weights of any window in closed form |
| `BlurKernel.ValueIsMean` | core/methods/demo/PImage.java:1015-1029 | over bytes the value is a byte if and only if the weighted sum is an int; then it is the weighted mean rounded down, between the least and the greatest byte of the window |
| `BlurKernel.LargestRadius` | core/methods/demo/PImage.java:894-896 | the weights of a whole kernel, times 255, are an int if and only if the radius is 232 at most |
| `BlurProofs.RowPassFits` | core/methods/demo/PImage.java:1003-1032 | the row pass leaves bytes everywhere if and only if every weighted sum of a row is an int |
| `BlurProofs.RowPassFitsAll` | core/methods/demo/PImage.java:1003-1032 | the row pass leaves bytes for every image of a size if and only if 255 times the weight of a row around its middle is an int |
| `BlurProofs.SizeFits` | core/methods/demo/PImage.java:993-1068 | every image of a size has bytes after both passes if and only if that holds, and 255 times the weight of a column around row `radius` is an int |
| `BlurProofs.MiddleIsHeaviest` | core/methods/demo/PImage.java:1003-1032 | no cell of a row has more weight around it than the middle one |
| `BlurProofs.HeaviestColumn` | core/methods/demo/PImage.java:1040-1061 | no cell of a column has more weight in its window than the one in row `radius` |
| `BlurProofs.RadiusFitsAll` | core/methods/demo/PImage.java:894-896 | both hold up to a radius of 232, and from 233 on neither holds for a side that has room for a whole kernel |
| `BlurProofs.NarrowBleeds` | core/methods/demo/PImage.java:1062 | a white image of 1 by 496 passes the rows at radius 248 and gets negative channels in the columns |
| `BlurProofs.RowWindowIsWhole` | core/methods/demo/PImage.java:1005-1025 | the window of the row pass weighs the whole row |
| `BlurProofs.ColumnWindowIsWhole` | core/methods/demo/PImage.java:1040-1061 | the window of the column pass weighs the whole column, for every content, if and only if the image is twice as high as the radius |
| `BlurProofs.BlurredBetween` | core/methods/demo/PImage.java:993-1068 | after a row pass that leaves bytes, every channel of the result lies between the least and the greatest value of that channel, and is the mean of the column of row means, if and only if the weighted sum of the column is an int; otherwise it is negative |
| `BlurProofs.BlurredChannels` | core/methods/demo/PImage.java:1062 | the channels of the written pixel are the blurred channels if and only if the three column sums are ints |
| `Bilinear.WeightsSum` | core/methods/demo/PImage.java:2060-2065 | the four weights are not negative and sum up to 5 to 2 less than one |
| `Bilinear.MixedBetween` | core/methods/demo/PImage.java:2060-2089 | a channel lies between one less than its least texel and its greatest, and below the greatest unless that is zero |
| `Bilinear.UniformDarkens` | core/methods/demo/PImage.java:2060-2089 | a uniform channel loses exactly one, unless it is zero |
| `Bilinear.MixedInterpolates` | core/methods/demo/PImage.java:2060-2089 | the filter rounds down the exact bilinear interpolation, and is off by less than one and a 32nd |
| `Bilinear.FilteredChannels` | core/methods/demo/PImage.java:2075-2091 | the packed result holds each of the four channels as it would be mixed alone: nothing is lost to the width of an int, nothing runs over |
| `Blit.ClipInside` | core/methods/demo/PImage.java:1561-1607 | for any two rectangles, every sample lies before the last texel, but for the width of an int, and every cell that is written on the screen |
| `Blit.SamplesFit` | core/methods/demo/PImage.java:1592-1593 | every rectangle is sampled inside a side of the source, in ints, if and only if the side has at most 65537 texels |
| `Blit.WideWraps` | core/methods/demo/PImage.java:1592-1593 | on a wider side the sample of texel 65536 is the least int |
| `BlitProofs.CopiesRead` | core/methods/demo/PImage.java:2050-2073 | no copy reads outside the array if and only if the source has less than two columns or lines, or neither side has over 65537 texels |
| `Blit.InsideReads` | core/methods/demo/PImage.java:2066-2073 | a sample inside the source reads the four texels around it, with the last row and column standing in for the next |
| `BlitInPlace.InPlaceFresh` | core/methods/demo/PImage.java:1518-1548 | for rectangles that `intersect` finds apart no cell is looked at after it has been written, unless the target is cut on the left or at the top and the source does not start there |
| `BlitInPlace.CutTargetSmears` | core/methods/demo/PImage.java:1500-1508 | for such a target it can be: rectangles of an image of 7 by 3 that do not intersect and whose copy smears |
| `BlitInPlace.FreshByAxes` | core/methods/demo/PImage.java:1619-1629 | no cell is looked at after it has been written if and only if this holds of the texels of the two axes: none in the columns of the target or none behind in the lines, and none behind in the columns or none level in the lines |
| `BlitInPlace.UntouchedRange` | core/methods/demo/PImage.java:1589-1607 | in steps of at most one texel an axis looks at no cell of the target if and only if its texels end before the target or begin behind it |
| `BlitInPlace.DrawnWhenFresh` | core/methods/demo/PImage.java:1619-1629 | a copy within one image that looks at no cell after it has been written draws what it would from the image as it was |
| `BlitInPlace.SameSizeInPlace` | core/methods/demo/PImage.java:1561-1630 | a copy within one image that keeps the size and replaces the pixels draws what it would from the image as it was, whatever that holds, if and only if the target does not overlap what it is drawn from, or does not come after it |
| `BlitInPlace.RectsKeepSize` | core/methods/demo/PImage.java:1571-1593 | copies of rectangles keep the size when what the image leaves of the source has the size of the target |
| `BlitInPlace.OnlyTarget` | core/methods/demo/PImage.java:1619-1629 | cells outside of the target are unchanged, also when the copy smears |
| `BlitProofs.DrawnFromAnother` | core/methods/demo/PImage.java:1619-1629 | from another image every cell of the target is blended with the pixel read at its sample, and no others are changed |
| `Blit.ClipKeepsSamples` | core/methods/demo/PImage.java:1592-1602 | clipping on the left keeps every sample where it was if and only if the target is not cut there or the source starts at its own edge |
| `BlitProofs.CopyScales` | core/methods/demo/PImage.java:1561-1630 | each cell of the target that is on the screen is blended with the pixel read at the position in proportion to its own, cut off by less than one unit for each cell before it, and every other cell is as it was |
| `Blit.ClipScales` | core/methods/demo/PImage.java:1589-1607 | the samples of an axis are in proportion to the cells they are drawn to, from the edge of the rectangle, or of the image when the target is cut, as long as the ratio is an int |
| `Blit.ClipSaturates` | core/methods/demo/PImage.java:1589-1590 | any other ratio is cut down to the greatest int |
| `Blit.ClipCovers` | core/methods/demo/PImage.java:1571-1607 | drawn is what of the target is on the screen, unless a rectangle is empty |
| `Blit.Scaler.FilterNewScanline` | core/methods/demo/PImage.java:2050-2056 | the fields of a scan line |
| `Blit.Scaler.FilterBilinear` | core/methods/demo/PImage.java:2059-2092 | the pixel read at a sample, from the source as it is then, or the exception when one of the four texels is not in the array |
| `Blit.BlitLine` | core/methods/demo/PImage.java:1620-1626 | the inner loop draws a line of the target cell by cell, up to a sample that cannot be read |
| `Blit.BlitLines` | core/methods/demo/PImage.java:1619-1629 | the two loops draw the target line by line, up to a sample that cannot be read |
| `Blit.BlitResize` | core/methods/demo/PImage.java:1561-1630 | for any two rectangles and any blending, from another image or within one: the visible part of the target is drawn cell by cell, and it throws if and only if some sample cannot be read, with exactly the cells before it drawn |
| `BlitProofs.ReadChannels` | core/methods/demo/PImage.java:2059-2092 | each channel of a pixel that is read is mixed by itself |
| `BlitProofs.SameSizeSamples` | core/methods/demo/PImage.java:1589-1593 | a copy that keeps its size, and is not cut on the left, samples each texel at its corner, as far as that is an int |
| `BlitProofs.SameSizeDarkens` | core/methods/demo/PImage.java:2059-2092 | a copy that keeps its size makes every channel of every texel one darker, zero excepted |
| `PtPlayCommands.CellRead` | libraries/modplayer/ptplay.cpp:422-436 | a cell is read from exactly the four bytes that spell it |
| `PtPlayer.Module.constructor` | libraries/modplayer/modplayer.cpp:188-212 | the fields start as set before playing: speed 6, ticks of 340 samples, everything else at rest |
| `PtPlayer.Module.StartCell` | libraries/modplayer/ptplay.cpp:462-577 | the start of a cell: volume and finetune of the sample, the period of the note, and the end of what lasts for one row only |
| `PtPlayer.Module.ChannelEffect` | libraries/modplayer/ptplay.cpp:652-782 | the effects of one channel: arpeggio, slides, vibrato, tremolo, volume |
| `PtPlayer.Module.ModuleEffect` | libraries/modplayer/ptplay.cpp:770-985 | position jump, pattern break and tempo |
| `PtPlayer.Module.ExtendedEffect` | libraries/modplayer/ptplay.cpp:800-960 | the extended effects |
| `PtPlayer.Module.LoopEffect` | libraries/modplayer/ptplay.cpp:868-899 | the pattern loop command |
| `PtPlayer.Module.PlayRow` | libraries/modplayer/ptplay.cpp:398-989 | the four cells of a row, one after the other, each with the row number the ones before it have left |
| `PtPlayer.Module.MoveOn` | libraries/modplayer/ptplay.cpp:992-1015 | the row below or the one skipped to, and the song position |
| `PtPlayer.Module.DoNote` | libraries/modplayer/ptplay.cpp:368-1019 | the whole new state after a row, or after one step of a pattern delay |
| `PtPlayer.Module.TickOne` | libraries/modplayer/ptplay.cpp:1045-1237 | the waves, slides and cut of one channel in a tick |
| `PtPlayer.Module.SlidePitch` | libraries/modplayer/ptplay.cpp:1050-1172 | the period of one channel in a tick: slide, tone portamento, arpeggio or vibrato |
| `PtPlayer.Module.DoTick` | libraries/modplayer/ptplay.cpp:1029-1238 | the whole new state after a tick |
| `PtPlayer.Module.MixMono` | libraries/modplayer/ptplay.cpp:1406-1458 | the mix, with a channel pointer that stays behind |
| `PtPlayer.Module.Clock` | libraries/modplayer/ptplay.cpp:1298-1305 | the whole new state after the clock of a sample |
| `PtPlayer.Module.RenderSample` | libraries/modplayer/ptplay.cpp:1277-1510 | one 16-bit mono sample: new state and bytes |
| `PtPlayer.Module.Render` | libraries/modplayer/ptplay.cpp:1253-1599 | over any stream of rows and samples: every pair of bytes, and the state at the end |
| `PtPlayProofs.CellKeepsChannel` | libraries/modplayer/ptplay.cpp:462-960 | no cell takes volumes, volume slide, or the places in the waves of a channel out of bounds, whatever the volumes of the samples |
| `PtPlayProofs.TickKeepsChannel` | libraries/modplayer/ptplay.cpp:1045-1237 | no tick takes a channel out of bounds |
| `PtPlayProofs.RowKeepsTempo` | libraries/modplayer/ptplay.cpp:963-984 | no row takes the speed out of 1 to 31, or the tick length out of 166 to 1328 samples |
| `PtPlayProofs.StartIsBounded` | libraries/modplayer/modplayer.cpp:188-212 | a module starts within these bounds, at speed 6 and at 125 beats a minute |
| `PtPlayProofs.RunKeepsBounds` | libraries/modplayer/ptplay.cpp:1277-1305 | over any stream of rows, after any number of samples: volumes within 0 to 63, waves and rows within 0 to 63, speed within 1 to 31, tick below speed, and the position in the tick within 0 to 1328 |
| `PtPlayProofs.HeardBetween` | libraries/modplayer/ptplay.cpp:1409-1458 | what is mixed from a channel on is bounded by 8064 for each channel left |
| `PtPlayProofs.RunIsMixed` | libraries/modplayer/ptplay.cpp:1406-1510 | over any run every mix is within 32256, so the clamp never fires, and at master volume 256 the bytes are the mix itself |
| `PtPlayProofs.WrittenIsSample` | libraries/modplayer/ptplay.cpp:1504-1510 | the two bytes hold the scaled mix if and only if that is a 16-bit number |
| `PtPlayProofs.ClockConserves` | libraries/modplayer/ptplay.cpp:1298-1305 | after any number of samples, samples rendered equal the position in the tick plus the lengths of the ticks gone by, through any changes of tempo |
| `PtPlayProofs.RowTakesSpeedTicks` | libraries/modplayer/ptplay.cpp:1036-1043 | from the tick that begins a row, the next row begins exactly `speed` ticks later, with the speed the row has set |
| `PtPlayProofs.RowsConserve` | libraries/modplayer/ptplay.cpp:1029-1043 | over any number of samples, the ticks taken equal the speeds of the rows begun, but for what is left of the first and of the last row, through any changes of speed |
| `PtPlayProofs.SteadyRows` | libraries/modplayer/ptplay.cpp:1036-1305 | at a steady tempo every row lasts speed times tick length samples: the samples rendered are told by the rows begun, but for the rest of the row and the tick |
| `PtPlayProofs.MixIsSum` | libraries/modplayer/ptplay.cpp:1409-1458 | exactly those channels are mixed, each once, whose number plus the ends before them is below four |
| `PtPlayProofs.LoopRepeats` | libraries/modplayer/ptplay.cpp:868-899 | of any number of executions of E6x, exactly the first x of every x + 1 jump back |
| `PtPlayProofs.JumpLands` | libraries/modplayer/ptplay.cpp:892-1015 | a jump back lands on the first row of the loop in the same pattern |
| `PtPlayProofs.SlideLeads` | libraries/modplayer/ptplay.cpp:1177-1186 | n ticks of a volume slide lead to the volume plus n steps, held between 0 and 63 |
| `PtPlayProofs.CutSilences` | libraries/modplayer/ptplay.cpp:1218-1235 | a note cut silences the channel with tick x, not before and for good |
| `PtPlayCommands.RowPlayed` | libraries/modplayer/ptplay.cpp:1029-1238 | in the player, after n ticks of a row each channel is what its cell has led to |
| `PtPlayCommands.VolumeLeads` | libraries/modplayer/ptplay.cpp:462-960 | what is heard after n ticks of a row, for every cell but a tremolo: the volume set by C, moved once by EA and EB, n times by A, 5 and 6, cut by EC, or that of the sample, or the one there was |
| `PtPlayCommands.TremoloLeads` | libraries/modplayer/ptplay.cpp:1188-1216 | in tick n of a tremolo the volume is moved by depth / 256 times the height of the wave after n - 1 steps, held between 0 and 63; speed, depth and place of the last tremolo stand in for those not given |
| `PtPlayCommands.WaveShapes` | libraries/modplayer/ptplay.cpp:55-61 | the sine rises up to a quarter, falls as it rose, and is mirrored in its second half; the saw tooth and the square |
| `PtPlayCommands.NotePlays` | libraries/modplayer/ptplay.cpp:450-600 | a note sets the period, in the finetune of its sample, under 0, C and F of the last sample, or in the one there was |
| `PtPlayCommands.SlideStarts` | libraries/modplayer/ptplay.cpp:487-512 | without a note the period stays; a slide goes on from where the last one has got to, but after a vibrato from the period |
| `PtPlayCommands.TonePortamentoStarts` | libraries/modplayer/ptplay.cpp:576-583 | a note under 3 and 5 is not played but becomes the target; without one the target stays |
| `PtPlayCommands.PitchKept` | libraries/modplayer/ptplay.cpp:648-866 | all other effects but fine slides and finetunes leave the period as the start of the cell has made it |
| `PtPlayCommands.PortamentoLeads` | libraries/modplayer/ptplay.cpp:660-670 | 1 and 2 move the period at every tick but the first of a row, between 113 and 856; a glissando rounds what is played |
| `PtPlayCommands.TonePortamentoLeads` | libraries/modplayer/ptplay.cpp:1127-1165 | 3 and 5 move it towards the target by so much at every tick but the first, never past it: it is there if and only if the steps cover the distance |
| `PtPlayCommands.VibratoLeads` | libraries/modplayer/ptplay.cpp:1083-1125 | 4 and 6 play the period moved by depth / 128 times the height of the wave, from the second tick on, and leave the period itself |
| `PtPlayCommands.ArpeggioPlays` | libraries/modplayer/ptplay.cpp:1068-1078 | 0 plays the note and the notes so many halftones above it in turn, the second digit before the first |
| `PtPlayCommands.FineSlideLeads` | libraries/modplayer/ptplay.cpp:818-838 | E1 and E2 move the period at once, with no bounds |
| `PtPlayCommands.FinetunePlays` | libraries/modplayer/ptplay.cpp:852-865 | E5 plays its note in another finetune |
| `PtPlayCommands.Remembered` | libraries/modplayer/ptplay.cpp:654-960 | what later rows fall back on: last sample, wave forms, glissando, and the last numbers of vibrato, tremolo and tone portamento |
| `PtPlayCommands.WavesRest` | libraries/modplayer/ptplay.cpp:514-520 | a wave rests in rows of other effects, and a note takes it back to its start |
| `PtPlayCommands.RowSets` | libraries/modplayer/ptplay.cpp:945-984 | the last F below 32 of a row sets the speed, the last one above 31 the beats of 24 ticks a minute, up to the rounding of the tick, and the last EE the delay |
| `PtPlayCommands.DelayLasts` | libraries/modplayer/ptplay.cpp:389-392 | a delay of x lets x rows pass |
| `PtPlayCommands.RowLeads` | libraries/modplayer/ptplay.cpp:770-1015 | where the song goes on: B at the first row of a position, D at a row in decimal digits of the next one, otherwise at the row below |
| `PtPlayCommands.SongEnds` | libraries/modplayer/ptplay.cpp:979-1010 | the end of the song is reached by a row with F00, or by one that leaves the last position |
| `PtPlayCommands.EndIsSilent` | libraries/modplayer/ptplay.cpp:1281-1285 | from then on, when it is looked for, all is silence |
| `PtPlayCommands.LoopPlays` | libraries/modplayer/ptplay.cpp:868-1015 | a pattern loop from E60 to E6x is played x + 1 times, row by row, in the same song position; then the song goes on below it |
| `SdWalk.GetNextPathComponent` | libraries/SD/SD.cpp:59-114 | the next component of at most 12 characters, where the one after it is looked for, and whether there is one |
| `SdWalk.SdFile.Open` | libraries/SD/SD.cpp:189 | a handle opens only if it is closed and the entry is there |
| `SdWalk.CallPathExists` | libraries/SD/SD.cpp:233-252 | the callback of `exists`: its own handle is closed again |
| `SdWalk.CallMakeDirPath` | libraries/SD/SD.cpp:256-275 | the callback of `mkdir` |
| `SdWalk.WalkPath` | libraries/SD/SD.cpp:118-218 | for every path and any callback: the walk ends, every call gets an open handle, both of its own handles are closed on every exit and closed only when open, and `parentDir` is not touched |
| `SdWalk.WalkCalls` | libraries/SD/SD.cpp:118-218 | any walk calls its callback for the components in turn, each with the directory that the ones before it lead to, up to the first one that answers false or is not found after the call; what they did to the card stays |
| `SdWalk.ExistsMeans` | libraries/SD/SD.cpp:532-539 | `exists` is true if and only if every component is in the directory that the ones before it lead to, and changes nothing |
| `SdWalk.MkdirOnlyAdds` | libraries/SD/SD.cpp:553-562 | `mkdir` changes nothing that is there, and adds only directories on the way |
| `SdWalk.MkdirThenExists` | libraries/SD/SD.cpp:553-562 | after a successful `mkdir`, `exists` is true |
| `SdWalk.MkdirSucceeds` | libraries/SD/SD.cpp:553-562 | `mkdir` succeeds if and only if no file stands in the way and no component is empty |
| `SdWalk.JoinSplit` | libraries/SD/SD.cpp:59-114 | joining names and taking the path apart gives them back if and only if none is longer than 12 characters |

## Left out

JSON:

- Floats are kept as the text of the literal; which floats Python prints, and what it makes of them, is not modelled.
- JsonReader.ReadEscape: `int(hexCode, 16)` takes only four hexadecimal digits here; Python also takes signs and spaces among
  the four, and `0x`.
- JsonReader.Loads: with the same hexadecimal digits.
- JsonSpellings.CodeScans: with the same hexadecimal digits.
- JsonSpellings.ScannedIsLiteral: with the same hexadecimal digits.
- Tuples and generators, which print as lists, and the order of a dictionary: entries are in the order of `items()`.

TGA:

- Targa.LoadImageTGA: the memory is large enough for the pixels that an int counts.
- Targa.SaveTGA: the two loops of the writer, for ALPHA and for 24 and 32 bits, are one here. They differ in the mask and the
  bytes only. I/O exceptions and flushing are left out.

Text, curves and pictures:

- Character widths and coordinates are reals; rounding is not modelled. The width of the box is not negative.
- Splines in three dimensions and `curveToBezierMatrix` are left out. For a detail of zero the matrix, which no vertex then
  uses, is not that of infinite floats. `PMatrix3D` is not part of this model: `apply` is taken as multiplication from the
  right.
- `blurAlpha` and `blurARGB`: the same two passes with one and with four accumulators.
- Blur.Image.BuildBlurKernel: gets the radius as the int that the float comes to.
- Blur.Image.BlurRGB: says nothing of the pixels when it ends in an exception; some of them are blurred by then.
- Blit.BlitResize: the steps are exact floors, not rounded as floats, and the differences of coordinates do not overflow. A
  blending mode is any function of two pixels. The branch without smoothing, which the code never takes, is left out.
- BlitInPlace.DrawnWhenFresh: does not say that a copy which is not fresh comes out different: a texel can have no weight.
- Hqvga.Vga.MoveArea: a move of height zero does not go through its wrapped pointers. Other drawing functions are left out.

Gameduino and SID:

- Device memory, SPI and serial line are arrays and sequences; waiting for the device is left out.
- Gameduino.Uncompress: the stream must hold what its header announces, copies must not reach back beyond address 0 and the
  result must fit; the code checks none of this.
- Sid.Cpu.CpuParse: addressing modes other than the operand byte at the program counter, all other instructions (in a run, any
  that leave the stack alone may stand between), cycles and interrupts are left out.
- SidPrograms.JsrAt: the two bytes of the address are not in the page of the stack.
- Sid.Cpu.CpuJsr: stops at an instruction that is not part of the model; the count of cycles is left out.

ProTracker:

- PtPlayer.Module.Render: the tuning tables, which are any functions here, frequencies, positions in the samples and sample
  loops, retriggered and delayed notes, panning, stereo, 8-bit and oversampled output, the lowpass filter, and the song-end
  flag, which nothing here reads. Which channels sound, and with which byte, is an input of each sample, and so is the row:
  which pattern the song position selects does not matter to what is proved. The product of master volume and mix is an int.
- PtPlayCommands.VolumeLeads: no cut of an earlier row is still to come; the same of `TremoloLeads`.
- PtPlayCommands.RowLeads: one cell of the row moves the song; of several, each works on what the ones before it have left
  (`PlayRow`).

SD:

- SdWalk.WalkPath: `SdFile` inside, errors of the card, and the folding of names to the 8.3 form are left out, and so are
  `remove`, `rmdir` and `open`, but for what the walk does with any callback.
