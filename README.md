# OreAssetEditor core, modelled in Dafny

OreAssetEditor is a desktop editor for the assets of a small game engine:

- **texture atlases**: an image cut into tiles, optionally a tileset with auto-tiling patches and per-tile colliders;
- **object classes**: a named list of typed properties with default values;
- **tiled levels**: a grid of tile references plus placed objects that carry one value per property of their class.

This project models the core of the editor:

- the binary metadata format (`writeMetadata` / `readMetadata`) and its scalar and string primitives;
- the on-disk `.atl`, `.obj` and `.lvl` files that the load constructors read and the `save` methods write;
- the in-memory edits: patch removal, level resize, tile set, property add/remove/move, object attach/detach;
- the auto-tiling neighbour test and source rectangle for a patch tile;
- the two byte-array exports: the atlases with the class-to-atlas table, and the levels with their objects.

Modules follow the source files:

| module | source file |
|---|---|
| `Bytes`, `Strings`, `Rgb`, `Metadata`, `Geometry` | `src/common.hpp` |
| `Atlases` | the `Atlas` / `Tileset` structs of `src/editor.hpp` and `atlasByName` |
| `Objects` | `ObjectClass` and `Object`, and the property edits of `src/editor/textures.cpp` |
| `LevelFiles`, `Levels` | `Level` |
| `AutoTile` | the drawing helpers of `src/editor/tiledlevel.cpp` |
| `AtlasExport`, `LevelExport` | the two `exportData` functions |
| `Arith` | small arithmetic facts they share |

How state and I/O appear in the model:

- An open file is the sequence of its unread bytes.
- A reader maps those bytes to a value and the bytes after it.
- A writer returns the bytes it appends.
- Each file format is a record datatype with an encoder and a decoder, and a round-trip lemma proves that decoding what was encoded gives back the record and leaves the rest of the file unread.
- Structures that the source updates in place are classes: `Tileset`, `Atlas`, `ObjectClass`, `Object` and `Level`. Their methods are proved against these record functions.
- The level grid is an `array`.
- Loops in the source are `for` and `while` loops with invariants. This covers the resize copy, the collider copy, the metadata scanner, the string reader, the byte packing and the export loops. Each is proved against a specification function.

## Model

| member | source | states |
|---|---|---|
| Rgb.Rgb565 | src/common.hpp:29-32 | a pixel with alpha below 128 becomes the key 0xF81F; an opaque pixel keeps the top 5/6/5 bits of red, green and blue, each in its own field |
| Rgb.Fields | src/common.hpp:31 | packing 5-, 6- and 5-bit fields into 16 bits is lossless: each field is recovered by the shifts and masks the decoder uses |
| Rgb.TranslucentIsKey | src/common.hpp:30 | a translucent pixel converts and decodes back to the transparent colour |
| Rgb.Rgb565RoundTrip | src/common.hpp:29-37 | an opaque colour that does not hit the key decodes to itself with the dropped low bits cleared |
| Rgb.Rgb565OfGrid | src/common.hpp:29-37 | an opaque colour already on the 5/6/5 grid survives encode then decode unchanged |
| Rgb.ColorOf565RoundTrip | src/common.hpp:34-37 | every 16-bit value other than the key decodes to a colour that re-encodes to the same value |
| Rgb.OpaqueMagentaCollides | src/common.hpp:29-37 | opaque magenta encodes to the key, so it reads back as transparent |
| Rgb.PixelBytes | src/editor/textures.cpp:300 | a pixel exports as two bytes, high byte first, whose value is the pixel |
| Bytes.LeBytes | src/common.hpp:75 | `fputn` of a k-byte integer writes exactly k bytes |
| Bytes.LeValueOfLeBytes | src/common.hpp:75-80 | reading back what `fputn` wrote gives the value modulo 256^k (the width cast of `fputn<uintN_t>`) |
| Bytes.LeBytesOfLeValue | src/common.hpp:75-80 | every k bytes are what `fputn` would write for the value `fgetn` reads from them |
| Bytes.LeBytesAt | src/common.hpp:155 | byte i of the encoding is `(n >> (i * 8)) & 0xff`, for negative n too |
| Bytes.IntToBytes | src/common.hpp:153-157 | `itobytes` emits exactly k fields, the little-endian bytes of n, whose value is n modulo 256^k |
| Bytes.ReadBytesPrefix | src/common.hpp:76-80 | `fread` of k bytes returns exactly the next k bytes and leaves the rest unread |
| Bytes.ReadBytesPastEnd | src/common.hpp:78 | a read that runs off the end of the file returns what is left padded with zeros and leaves nothing |
| Bytes.GetNOfLeBytes | src/common.hpp:75-80 | `fgetn` after `fputn` of the same width gives the value modulo 256^k and leaves the rest |
| Bytes.ToInt32OfTruncated | src/editor.hpp:186 | reading a 32-bit field into an `int` gives back any 32-bit signed value that was written |
| Bytes.Uint32RoundTrip | src/common.hpp:100 | an unsigned 32-bit value passed as `int` through `%32i` reads back unchanged |
| Geometry.ReadVec2OfBytes | src/editor.hpp:41 | a `vec2i` written as two 32-bit fields reads back as itself |
| Geometry.ReadVec2sRoundTrip | src/editor.hpp:46 | n `vec2i` written in a row read back as the same n values, the rest unread |
| Strings.CStrPrefix | src/common.hpp:92 | `c_str()` sees the string up to its first 0 byte, that prefix has no 0 and is followed by one |
| Strings.CStrOfZeroFree | src/common.hpp:92 | a string without 0 bytes passes through `c_str()` whole |
| Strings.ScanStrSound | src/common.hpp:82-90 | `freadstr` returns a run without stop bytes that is either the whole file or is followed by one stop byte, which is consumed |
| Strings.ReadStr | src/common.hpp:82-90 | the byte loop returns the same string and unread rest as the scanner specification |
| Strings.ReadStrRoundTrip | src/common.hpp:82-92 | `freadstr` after `fwritestr` gives back a string without 0 or 0xFF bytes and leaves the rest unread |
| Strings.ReadStrStopsAtFF | src/common.hpp:85-86 | with a signed `char`, a 0xFF byte compares equal to `EOF` and ends the string early |
| Strings.DigitPrefix | src/common.hpp:40 | the leading run of decimal digits (`find_first_not_of`) is a prefix of digits followed by a non-digit or the end |
| Strings.StrLessIrreflexive | src/common.hpp:39-42 | the name comparator never puts a name before itself |
| Strings.StrLessNumeric | src/common.hpp:40 | numbered names compare by value: "9" comes before "10" though it does not lexicographically |
| Strings.StrLessNotAsymmetric | src/common.hpp:39-42 | as written, "1" and "-" each compare less than the other |
| Strings.NameLessStrictOrder | src/common.hpp:39-42 | the corrected comparator is irreflexive, asymmetric and transitive |
| Strings.NameLessIncomparableTransitive | src/common.hpp:39-42 | under the corrected comparator incomparability is transitive, so it is a strict weak ordering as `std::sort` requires |
| Strings.LexLessTotal | src/common.hpp:41 | byte-wise `a < b` orders any two distinct strings one way or the other |
| Metadata.Step | src/common.hpp:97-108 | one scanning step reads a code and advances by the length of its spelling, or skips one other character, never past the end |
| Metadata.WriteMetadata | src/common.hpp:94-111 | the scanning loop writes exactly the encoding of the codes of the format applied to the arguments in order |
| Metadata.EncodedLength | src/common.hpp:94-111 | that encoding is as long as the widths of the codes add up to (a string counts up to its first 0 plus one, a block counts its size) |
| Metadata.ReadMetadata | src/common.hpp:113-130 | the scanning loop stores exactly the decoding of the codes of the format, and leaves the file after them |
| Metadata.ExpectedInt | src/common.hpp:98-101 | an integer argument reads back as its 32-bit value cast to the width of its code |
| Metadata.DecodeAllOfEncodeAll | src/common.hpp:94-130 | decoding the encoding of any argument list whose strings are readable gives the expected values and leaves the rest |
| Metadata.MetadataRoundTrip | src/common.hpp:94-130 | `readMetadata` after `writeMetadata` with the same format gives back every argument and leaves the rest unread |
| Metadata.CodesOfPieces | src/common.hpp:97-108 | a format spelled from codes and other characters scans to exactly those codes |
| Metadata.FormatSizes | src/editor.hpp:50 | "%32i %32i" scans to two 32-bit codes |
| Metadata.FormatProperty | src/editor.hpp:126 | "%s, %s, %8i" scans to two strings and an 8-bit code |
| Metadata.FormatLevelHeader | src/editor.hpp:177 | "%32i, %32i, %s" scans to two 32-bit codes and a string |
| Metadata.FormatLevel | src/editor.hpp:232 | "%32i %32i %s %b %16i" scans to two 32-bit codes, a string, a block and a 16-bit code |
| Metadata.FormatObject | src/editor.hpp:186 | "%32i %32i %s %16i" scans to two 32-bit codes, a string and a 16-bit code |
| Atlases.FirstCovering | src/editor.hpp:19-24 | the position of the first patch whose four-tile strip contains the tile, or the count when none does |
| Atlases.PatchOfSpec | src/editor.hpp:19-26 | when no stored patch is -1, `patch` returns -1 exactly when no patch covers the tile, and otherwise the first stored patch that covers it; so `inPatch` holds exactly when some patch covers the tile |
| Atlases.WithoutPatchSpec | src/editor.hpp:28-35 | removing leaves the list as it was when nothing covers the tile, and otherwise drops just the first covering patch, keeping the rest in order |
| Atlases.Tileset.Patch | src/editor.hpp:19-24 | the loop returns the first covering patch or -1 |
| Atlases.Tileset.RemovePatch | src/editor.hpp:28-35 | the patch list becomes the list without the first covering patch, and the colliders are untouched |
| Atlases.GridCountsWholeTiles | src/editor.hpp:86-87 | `width()` and `height()` count the whole tiles that fit across and down |
| Atlases.Atlas.ToIndexNumbersCells | src/editor.hpp:89 | `toIndex` numbers the cells of the grid 0 to width·height-1 one to one, and the column and row come back as remainder and quotient |
| Atlases.ReadBoolsRoundTrip | src/editor.hpp:52 | collider flags written one byte each read back as themselves |
| Atlases.ReadColliders | src/editor.hpp:49-52 | the collider section reads a stored width and height and then that many flags |
| Atlases.ReadCollidersRoundTrip | src/editor.hpp:49-52 | a collider section whose size fits 32 bits reads back as written |
| Atlases.ReadTilesetRoundTrip | src/editor.hpp:44-59 | patch count, patches, collider flag and colliders read back as written |
| Atlases.AtlasFileRoundTrip | src/editor.hpp:39-84 | decoding the `.atl` encoding of a saveable atlas record gives back its tile size, tileset, patches and stored collider grid, and leaves the rest of the file unread |
| Atlases.OverlayAt | src/editor.hpp:53-57 | after the copy, a cell inside both grids holds the stored flag at its stored position, and any other cell keeps its old value |
| Atlases.OverlayWhole | src/editor.hpp:53-57 | when the stored grid has the atlas's own size, the copy yields exactly the stored flags |
| Atlases.OverlayOfWhole | src/editor.hpp:48-57 | whatever the fresh collider array held, copying a stored grid of the atlas's own size over it yields that grid |
| Atlases.CopyColliders | src/editor.hpp:53-57 | the nested loop leaves the flags array equal to the overlay of the stored grid on the old contents |
| Atlases.LoadTileset | src/editor.hpp:42-59 | the tileset read has the file's patches and, when flagged, a fresh collider array of the atlas's size holding the overlay |
| Atlases.Atlas.Load | src/editor.hpp:39-61 | the atlas holds the name given, the image, and the tile size and tileset of the decoded file |
| Atlases.Atlas.Save | src/editor.hpp:70-84 | `save` writes exactly the encoding of the atlas's tile size, tileset, patches and colliders |
| Atlases.SaveThenLoad | src/editor.hpp:39-84 | `save` then the load constructor on the same image gives back the tile size, whether there is a tileset, the patches, whether there are colliders, and the collider flags |
| Atlases.NameIndex | src/editor/textures.cpp:13-18 | the position of the first atlas with the name, or the count when there is none |
| Atlases.FindAtlasSpec | src/editor/textures.cpp:13-20 | the lookup returns the first atlas with the name; when none has it, the first atlas; null only when there are no atlases |
| Atlases.AtlasByName | src/editor/textures.cpp:13-20 | the loop returns that atlas |
| Objects.Erase | src/editor/textures.cpp:220 | erasing position i shifts every later element down by one and keeps the earlier ones |
| Objects.EraseMultiset | src/editor/textures.cpp:220 | erasing removes exactly one copy of the erased element |
| Objects.Swap | src/editor/textures.cpp:238 | `iter_swap` exchanges the two positions and keeps the others |
| Objects.SwapPermutes | src/editor/textures.cpp:238-239 | a swap is a permutation, undoes itself, and does not depend on argument order |
| Objects.EraseAppended | src/editor/textures.cpp:219-236 | removing a property just added restores the list |
| Objects.EraseKeepsPairs | src/editor/textures.cpp:219-222 | erasing the same position from the properties and from a child's values keeps each value paired with its property |
| Objects.SwapKeepsPairs | src/editor/textures.cpp:237-240 | swapping the same positions in both keeps the pairing |
| Objects.AppendKeepsPairs | src/editor/textures.cpp:233-236 | appending a property and an empty value keeps the pairing |
| Objects.IndexOf | src/editor/textures.cpp:325 | `std::find` minus begin: the first position holding the element, or the count exactly when it is absent |
| Objects.RemoveAllSpec | src/editor.hpp:164 | erase-remove keeps every other child, drops every copy of this one, and keeps a list without repeats without repeats |
| Objects.RemoveAllOnce | src/editor.hpp:164 | in a list without repeats, erase-remove erases the one position of the child |
| Objects.Defaults | src/editor.hpp:158-161 | a new object's values are the default values of the class's properties, in order |
| Objects.ReadPropertyRoundTrip | src/editor.hpp:126-136 | a property record written by `save` reads back as the same name, default and type |
| Objects.ReadPropertiesRoundTrip | src/editor.hpp:123-136 | n property records read back as the same n properties |
| Objects.ClassFileRoundTrip | src/editor.hpp:119-138 | an `.obj` file written by `save` decodes to the same atlas name and properties |
| Objects.ReadPropertyList | src/editor.hpp:124-127 | the loop reads the same properties as the specification reader |
| Objects.LastSeparator | src/editor.hpp:119 | `find_last_of("/\\")` gives the last separator, with -1 standing for `npos` |
| Objects.ClassName | src/editor.hpp:119 | the class name is a slice of the path that starts just after the last separator |
| Objects.ClassNameOfFile | src/editor.hpp:119 | the class name of `dir/stem.obj` is `stem` |
| Objects.ClassNameOfShortFile | src/editor.hpp:119 | a file name shorter than four characters: the length wraps around and the whole file name is kept |
| Objects.ObjectClass.Load | src/editor.hpp:119-128 | the class takes the name from the path, the atlas looked up by the stored name and the stored properties, and has no children |
| Objects.ObjectClass.Save | src/editor.hpp:131-138 | `save` writes exactly the encoding of the atlas name and the properties |
| Objects.SaveThenLoad | src/editor.hpp:119-138 | `save` then `ObjectClass(path)` gives back the path, the properties and no children, with the atlas looked up again by its name, so the same-named atlas when it is in the list |
| Objects.ObjectClass.RemoveProperty | src/editor/textures.cpp:219-222 | the property and, in every child, its value are erased; positions and everything else stay, and the class stays consistent |
| Objects.ObjectClass.AddProperty | src/editor/textures.cpp:233-236 | a default property is appended and every child gets an empty value |
| Objects.ObjectClass.MoveProperty | src/editor/textures.cpp:237-240 | when the target is in range, the property and every child's value swap with their neighbour; otherwise nothing changes |
| Objects.ObjectClass.SwapChildValues | src/editor/textures.cpp:239 | every child's values swap the two positions, and nothing else about the child changes |
| Objects.Object.constructor | src/editor.hpp:156-162 | the object takes the position and the class's defaults and is appended to the class's children, which stay consistent |
| Objects.Object.Destroy | src/editor.hpp:164 | the destructor removes this object from its class's children and leaves the rest of the class as it was |
| LevelFiles.ReadStrsRoundTrip | src/editor.hpp:195-197 | n strings written with `fwritestr` read back as the same strings |
| LevelFiles.Int32Field | src/editor.hpp:186 | an object coordinate written through `%32i` reads back as itself |
| LevelFiles.CountField | src/editor.hpp:181 | a count below 65536 written through `%16i` reads back as itself |
| LevelFiles.ReadObjectRoundTrip | src/editor.hpp:186-197 | an object record written by `save` reads back as the same position, class name and values |
| LevelFiles.ReadObjectsRoundTrip | src/editor.hpp:183-198 | n object records read back as the same records |
| LevelFiles.ReadHeaderRoundTrip | src/editor.hpp:177 | the header reads back as the same width, height and tileset name |
| LevelFiles.LevelCodesSplit | src/editor.hpp:232 | the save format is the header of the load format followed by the tiles and the object count |
| LevelFiles.LevelFileRoundTrip | src/editor.hpp:174-239 | an `.lvl` file written by `save` decodes to the same size, tileset name, tiles and objects |
| Levels.TileIndexInGrid | src/editor.hpp:226 | `pos.x + pos.y * width` lies inside the grid for a position on it |
| Levels.TileIndexInjective | src/editor.hpp:226-227 | two positions on the grid share a cell exactly when they are equal |
| Levels.ResizedAt | src/editor.hpp:212-219 | after a resize a cell holds the old tile that shares its column and its distance from the bottom, when that tile existed, and -1 otherwise |
| Levels.ResizedSame | src/editor.hpp:210-224 | resizing to the same size keeps the grid |
| Levels.ResizedGrowShrink | src/editor.hpp:210-224 | growing and then shrinking back gives back the original grid |
| Levels.CopyResized | src/editor.hpp:215-219 | the nested copy loop fills the cleared grid with the resized contents |
| Levels.ResizedArray | src/editor.hpp:212-219 | a fresh array holding the resized grid |
| Levels.Level.Resize | src/editor.hpp:210-224 | an equal size changes nothing; otherwise the level gets the new size and a fresh grid holding the resized tiles |
| Levels.Level.SetTile | src/editor.hpp:227 | exactly the cell of the position changes, and `getTile` then returns the new tile |
| Levels.Level.New | src/editor.hpp:201-204 | a new level has the size, name and tileset given, no objects, and every cell -1 |
| Levels.FirstNamed | src/editor.hpp:187-193 | the position of the first class with the name, or the count |
| Levels.ParentInSpec | src/editor.hpp:187-193 | the parent is the first class with the name, and null exactly when no class has it |
| Levels.FindParent | src/editor.hpp:187-193 | the loop returns that parent |
| Levels.ReadStrList | src/editor.hpp:195-197 | the value loop reads the same strings as the specification reader |
| Levels.ReadObjectHeader | src/editor.hpp:186 | position, class name and value count are the decoded fields of "%32i %32i %s %16i" |
| Levels.ReadRecord | src/editor.hpp:184-197 | one object record, as the specification reader reads it |
| Levels.CursorsChain | src/editor.hpp:183-198 | the positions between consecutive records chain the specification reader |
| Levels.ReadNth | src/editor.hpp:183-198 | reading from the k-th position gives the k-th record and the next position |
| Levels.PlaceObject | src/editor.hpp:184-197 | a fresh object with the record's position and values, parent the first class with its name, appended to that class's children only |
| Levels.LoadObjects | src/editor.hpp:181-198 | the loaded objects match the records one to one, and each class gains exactly its own objects, in file order |
| Levels.LoadLevel | src/editor.hpp:174-199 | size, tileset, tiles and objects of the decoded file |
| Levels.Level.Load | src/editor.hpp:174-199 | the level holds the decoded size, the looked-up tileset, the decoded tiles and the decoded objects, each attached to its class |
| Levels.ReadTiles | src/editor.hpp:179-180 | a fresh array holding the next width·height tiles |
| Levels.ReadLevelHeader | src/editor.hpp:177 | the decoded header, with width and height below 2^32 |
| Levels.Records | src/editor.hpp:233-234 | the saved record of each object: position, class name, values |
| Levels.WriteStrs | src/editor.hpp:235-237 | the value loop writes the encoding of the values |
| Levels.WriteObject | src/editor.hpp:234-237 | one object's record encoding |
| Levels.WriteObjects | src/editor.hpp:233-238 | all objects' record encodings, in order |
| Levels.WriteLevelHeader | src/editor.hpp:232 | the header, tiles and count, which the records then complete to the level file |
| Levels.Level.Save | src/editor.hpp:230-239 | `save` writes exactly the encoding of the level's size, tileset name, tiles and object records |
| Levels.SaveReadable | src/editor.hpp:174-239 | the bytes `save` writes for a saveable level decode to the level's own file record, and their width × height does not wrap at 32 bits |
| Levels.SaveThenLoad | src/editor.hpp:174-239 | `save` then `Level(name)` gives back the size and the tiles, looks the tileset up again by name, and loads one object per saved object with its position and values, attached to the first class of its class's name |
| AutoTile.GetTileOnGrid | src/editor.hpp:226 | `getTile` of a position on the grid reads the cell of its column and row |
| AutoTile.ConcatX | src/editor/tiledlevel.cpp:14 | the horizontal neighbour joins exactly when it lies inside the level and holds the tile's patch |
| AutoTile.ConcatY | src/editor/tiledlevel.cpp:15 | the vertical neighbour joins exactly when it lies inside the level and holds the tile's patch |
| AutoTile.Column | src/editor/tiledlevel.cpp:19-20 | the column offset chosen from the two joins is below four, and 0 exactly when both sides join |
| AutoTile.ColumnInjective | src/editor/tiledlevel.cpp:19-20 | each combination of joins selects its own column |
| AutoTile.ColumnOnto | src/editor/tiledlevel.cpp:19-20 | every column of the patch strip is reachable |
| AutoTile.Delta | src/editor/tiledlevel.cpp:18 | `quater * 2 - 1` looks left/up for 0 and right/down for 1 |
| AutoTile.HalfStep | src/editor/tiledlevel.cpp:21 | `(t * 2 + q) * s / 2` is t whole tiles plus half a tile for q = 1 |
| AutoTile.QuarterSourceInTile | src/editor/tiledlevel.cpp:17-22 | each quarter is drawn from the half-size rectangle at its own corner of the chosen column's tile |
| AutoTile.DrawPatch | src/editor/tiledlevel.cpp:24-29 | four quarters, in order, each taken from a tile in the same four-tile patch strip |
| AutoTile.DrawPatchQuadrants | src/editor/tiledlevel.cpp:17-29 | the i-th drawn rectangle is the i-th quadrant (top-left, top-right, bottom-left, bottom-right) of the tile the quarter's column picks |
| AutoTile.JoinedQuarter | src/editor/tiledlevel.cpp:19-20 | a quarter whose two neighbours both show the patch uses the first column |
| AutoTile.InteriorUsesFirstColumn | src/editor/tiledlevel.cpp:17-29 | a tile surrounded by its patch draws all quarters from the first column |
| AutoTile.IsolatedUsesSecondColumn | src/editor/tiledlevel.cpp:17-29 | a tile with no such neighbour draws all quarters from the second column |
| LevelExport.ObjectViewOf | src/editor/tiledlevel.cpp:154-157 | an exported object carries its position, its values and its class's index in the class list |
| LevelExport.LevelViewOf | src/editor/tiledlevel.cpp:141-153 | an exported level carries its size, its tiles, its raster width and tile width, and all its objects |
| LevelExport.TileFieldSpec | src/editor/tiledlevel.cpp:146-148 | an empty cell exports 0; any other cell exports one more than its tile number, truncated to a byte, and is nonzero and recoverable when the number is below 255 |
| LevelExport.TileNumberOfWholeTiles | src/editor/tiledlevel.cpp:148 | when the raster is whole tiles wide, the tile number is x plus y times the columns |
| LevelExport.TileNumberFollowsRaster | src/editor/tiledlevel.cpp:148 | when the raster is not whole tiles wide, rows count from the raster width; tile (0, 2) of a 10-pixel raster with 4-pixel tiles exports 6, not 5 |
| LevelExport.ValuePieces | src/editor/tiledlevel.cpp:156-163 | one field per value: four bytes of its number, its bytes and a 0, or nothing, by property type |
| LevelExport.LevelLayout | src/editor/tiledlevel.cpp:142-165 | a level exports width, height, one byte per cell, then a four-byte count equal to the number of fields after it, then the object section |
| LevelExport.ReadValuesRoundTrip | src/editor/tiledlevel.cpp:156-163 | reading the value fields back by type gives each parsed number or string; float values give nothing |
| LevelExport.ObjectRoundTrip | src/editor/tiledlevel.cpp:154-163 | an exported object reads back as its position, class index (each two bytes) and values |
| LevelExport.ExportTiles | src/editor/tiledlevel.cpp:144-150 | the row loop emits the cell fields in row order |
| LevelExport.ExportValues | src/editor/tiledlevel.cpp:156-163 | the value loop emits the value fields |
| LevelExport.ExportObject | src/editor/tiledlevel.cpp:154-163 | one object's fields |
| LevelExport.AppendObjects | src/editor/tiledlevel.cpp:152-164 | the object count and every object's fields are appended |
| LevelExport.ExportLevel | src/editor/tiledlevel.cpp:142-165 | one level's fields with the count inserted |
| LevelExport.ExportData | src/editor/tiledlevel.cpp:137-170 | nothing without a current level; otherwise the level count and each level's fields |
| AtlasExport.AtlasViewOf | src/editor/textures.cpp:293-321 | an exported atlas carries its image, tile size, patches and whether it has a tileset and colliders |
| AtlasExport.ClassAtlases | src/editor/textures.cpp:325 | each class exports the index of its atlas in the atlas list |
| AtlasExport.TilesNeedWidth | src/editor/textures.cpp:294 | an atlas with tiles is at least one tile wide |
| AtlasExport.PixelWidths | src/editor/textures.cpp:296-303 | every tile row is two bytes per pixel, and the pixels are tiles × rows × that |
| AtlasExport.PixelOrder | src/editor/textures.cpp:296-303 | byte b of pixel (x, y) of tile i sits at its tile/row/column offset and holds that byte of the sampled pixel's RGB565 value |
| AtlasExport.SampleOfWholeTiles | src/editor/textures.cpp:299 | when the image is whole tiles wide, tile i is sampled from its column and row of the grid |
| AtlasExport.SampleSkewsOnPartialTiles | src/editor/textures.cpp:299 | when the image is not whole tiles wide, tile 2 of a 10-pixel image with 4-pixel tiles is sampled from (8, 0), not from (0, 4) |
| AtlasExport.PatchIds | src/editor/textures.cpp:307-309 | each patch exports `x + y * width() + 1` |
| AtlasExport.PatchIdLocates | src/editor/textures.cpp:308 | a patch so numbered is nonzero and its column and row come back |
| AtlasExport.ColliderCount | src/editor/textures.cpp:313 | the byte count is the least that holds one bit per tile |
| AtlasExport.PackedBit | src/editor/textures.cpp:314-317 | bit j of a byte after m steps is flag i·8+j when j < m, else 0 |
| AtlasExport.ColliderUnpacks | src/editor/textures.cpp:311-319 | tile k's collider is bit k mod 8 of byte k / 8 |
| AtlasExport.ColliderPadding | src/editor/textures.cpp:316 | the bits past the last tile are 0 |
| AtlasExport.PackByte | src/editor/textures.cpp:314-317 | the bit loop builds the packed byte |
| AtlasExport.ExportColliders | src/editor/textures.cpp:311-320 | the byte loop emits the packed collider bytes |
| AtlasExport.AtlasLayout | src/editor/textures.cpp:294-321 | an atlas exports tile count and size, its pixels, the tileset flag, and for a tileset the patch count, patch numbers and collider flag |
| AtlasExport.ClassFieldsLayout | src/editor/textures.cpp:323-326 | the class table is a two-byte count and one two-byte atlas index per class |
| AtlasExport.ExportRow | src/editor/textures.cpp:298-301 | the pixel loop emits one row of a tile |
| AtlasExport.ExportTile | src/editor/textures.cpp:297-302 | the row loop emits one tile |
| AtlasExport.ExportPixels | src/editor/textures.cpp:296-303 | the tile loop emits every tile's pixels |
| AtlasExport.ExportTileset | src/editor/textures.cpp:304-321 | the tileset fields |
| AtlasExport.ExportAtlas | src/editor/textures.cpp:294-321 | one atlas's fields |
| AtlasExport.ExportAtlases | src/editor/textures.cpp:292-322 | the atlas count and every atlas's fields |
| AtlasExport.ExportClasses | src/editor/textures.cpp:323-326 | the class table |
| AtlasExport.ExportData | src/editor/textures.cpp:289-330 | atlases then the class table, as the export specification gives |

## Left out

- Files, the PNG image codec, the clipboard and the ImGui windows are not modelled. A file is a sequence of bytes passed in and returned; an image is a decoded width × height × pixels value.
- Reads past the end of a file yield 0 bytes. In C++ the destination keeps whatever it held, which the model cannot know.
- Atlases.Atlas.Load: requires, when the file holds colliders, a positive tile size and a stored grid whose w × h does not wrap at 32 bits. The C++ checks neither: `width()` divides by the tile size (editor.hpp:86-87), and with a wrapped `w * h` (editor.hpp:51-52) the copy loop reads past the flags it allocated. The model does not give a meaning to division by zero or to that overrun.
- Levels.Level.Resize: requires a non-negative size whose product is below 2^31. The editor clamps the size to at least 1 before its input field (tiledlevel.cpp:184), and a larger product overflows the `int` `size.x * size.y` (editor.hpp:212).
- Levels.Level.Load: requires that width × height of the stored header not wrap at 32 bits. The C++ allocates `width * height` as `uint32_t` and would read a wrapped count.
- Levels.Level.Load: an object whose class name matches no class stays attached to nothing (null parent). C++ leaves the pointer uninitialised.
- Levels.Level.Load: the model reads an object's whole record and then attaches it. The source attaches between reading the header and reading the values, which touch disjoint state, so the result is the same.
- Levels.Level.GetTile: has no contract of its own. SetTile, TileIndexInGrid, TileIndexInjective and AutoTile.GetTileOnGrid state what it returns.
- Rgb.ColorOf565: has no contract of its own. Its round-trip lemmas with Rgb565 state it.
- Geometry.GetPixel: answers transparent outside the image. The graphics library's behaviour there is not part of this model.
- `std::sort` itself is not modelled. Only the comparator handed to it is.
- Strings.StrLess: `std::stoi` of a long digit run would throw. The model compares unbounded values.
- LevelExport: `std::stoi` of a property value is a parameter `parse`. Its exception on non-numbers is not modelled.
- LevelExport: FLOAT properties export no bytes, as in the source.
- The export text (`"%d, "` per field, the header and footer lines, and `pop_back` of the last ", ") is not modelled. The exports are modelled as their sequences of field values.
- AtlasExport.Exportable: requires a positive tile size (the source divides by it) and, for colliders, one flag per tile.
- AtlasExport.AtlasLayout: the tile count, tile size and patch count are `%d` fields of the full `int`, not truncated to a byte. The model keeps them as integers.
- The exports take value views of the atlases, classes and levels (AtlasViewOf, LevelViewOf). They read but do not change editor state.
- The `tile == -1` test compares both components with -1, and the model's empty cell is (-1, -1).
- `%d` of an `int` that overflowed in the source's own arithmetic (for example `tile.y * image.width`) is not modelled. The model computes with unbounded integers.
- AutoTile.DrawPatch: the screen position and size (`floor`/`ceil` of float vectors) are left out. Only the neighbour tests, the column choice and the source rectangle are modelled.
- Atlases.CopyColliders: cells outside the overlap of the stored and current grids keep the array's previous contents. In C++ they are uninitialised.
- The atlas constructor from an image file (editor.hpp:38), the destructors of Atlas and Level, and the `ObjectClass` destructor's implicit save are not part of this model.

## Findings

| source | as written | input that shows it | evidently intended | confidence | as-written member | corrected member |
|---|---|---|---|---|---|---|
| src/common.hpp:39-42 | a name starting with a digit is less than every name that does not, but a name starting with a byte below '0' is also less than it, by `a < b` | "1" and "-": `strcmp("1", "-")` and `strcmp("-", "1")` both hold | names that do not start with a digit never precede names that do, so the comparator is a strict weak ordering for `std::sort` | not executed | Strings.StrLessNotAsymmetric | Strings.NameLessStrictOrder |
