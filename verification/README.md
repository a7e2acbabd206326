# Game Boy Camera image service, modelled in Dafny

The service takes a grayscale upload, shrinks it so that its long side is
128 pixels, quantizes every pixel to the four shades of the Game Boy display
with parity-driven ordered dithering, grows it back to the upload's size and
stores it under a generated name. Images are read back by name, and a name
must match a fixed pattern before any file is opened.

The model has five modules:

- `Quantizer` (`quantizer.dfy`): the per-pixel band chain that `gbc_filter`
  evaluates, as the function `Level(v, i, j)`. A second definition reads the
  chain as a table of bands. Each band has a floor, a base shade and a 2x2
  dithering pattern. Lemmas prove that the two definitions agree and that
  every value falls in exactly one band. Further lemmas cover the palette,
  saturation at both ends, the solid mid-grey bands, the worked examples,
  monotonicity and dependence on the coordinates only through their parities.
- `Images` (`images.dfy`): `validate_image_type` and the in-place double loop
  of `gbc_filter` in `gbc/images.py`. The loop is a method over an
  `array2<Luma>` whose cells become `Level(old value, i, j)`. Dafny arrays
  cannot change shape, so the grid's dimensions are unchanged by
  construction.
- `GameBoy` (`gameboy.dfy`): the copy of `gbc_filter` in `gbc/gameboy.py`,
  modelled as its own loop. It is proved against the same `Level`, and
  `FiltersAgree` runs both copies on equal grids and proves the results
  equal. The script's `shrink` and `grow` are textually identical to the
  service's, and `Resize` models both.
- `Resize` (`resize.dfy`): the target sizes of `shrink` and `grow`. The long
  side becomes 128 and the short side becomes `floor(128 * short / long)`;
  `grow` gives exactly the requested size.
- `ImageStore` (`store.dfy`): the allowed upload types and their extensions,
  the name `uuid + extension`, and the chunk loop of `save` (`WriteStream`).
  The loop copies the stream until the first empty chunk. The module also holds the name
  guard of `open` and the path join. The storage directory is a map from path
  to bytes, and a ghost log records every path handed to `fopen`.

The name guard is modelled as Python's `re.match` runs it: anchored at the
start, and with `$` also matching just before one final newline. So
`NameMatches` accepts a strict name, or a strict name followed by `"\n"`.
Neither form contains `/` or `..`.

The chain in `gbc_filter` has twelve `>=` thresholds and then an
unconditional `else`, so it splits 0..255 into thirteen ranges.
`Quantizer.Bands` has thirteen entries, the last one with floor 0.

## Model

| member | source | states |
|---|---|---|
| `Quantizer.Level` | gbc/images.py:69-94 | every filtered cell holds one of the four shades 0, 86, 172, 255 |
| `Quantizer.BandFrom` | gbc/images.py:69-94 | scanning the chain from threshold k on, for a value below the threshold before k, stops at a band at or after k whose range contains the value |
| `Quantizer.BandOf` | gbc/images.py:69-94 | the band the chain selects is one whose range contains the value: at or above its floor, below the floor of the band checked before it |
| `Quantizer.BandsDescend` | gbc/images.py:69-91 | the band floors are checked in strictly descending order and the last range reaches down to 0 |
| `Quantizer.BandsPartition` | gbc/images.py:69-94 | every value 0..255 lies in exactly one band: in band k if and only if k is the band the chain selects |
| `Quantizer.LevelMatchesBands` | gbc/images.py:69-94 | the arithmetic chain equals the table reading: the selected band's base shade, moved one step for the pixels its 2x2 pattern picks |
| `Quantizer.ParityOnly` | gbc/images.py:67-94 | a cell's output depends on its coordinates only through i%2 and j%2 |
| `Quantizer.Extremes` | gbc/images.py:69-94 | a value of 236 or more becomes 255, and a value below 18 becomes 0, at every coordinate |
| `Quantizer.SolidMidBands` | gbc/gameboy.py:57-66 | values 157..175 always become 172 and values 78..96 always become 86, with no dithering |
| `Quantizer.BandExamples` | gbc/images.py:73-80 | 200 at (0,0) gives 172 and at (0,1) gives 255; 150 at (1,1) gives 86 and at (0,0) gives 172 |
| `Quantizer.Monotone` | gbc/gameboy.py:49-74 | at a fixed pixel, a larger input never gives a smaller output |
| `Images.ValidateImageType` | gbc/images.py:13-22 | the gate passes exactly image/gif, image/jpeg and image/png and answers every other type with a bad request titled "Bad request" and its message |
| `Images.GbcFilter` | gbc/images.py:65-95 | after the loop each cell (i, j) holds the shade of its own old value at (i, j); no other cell's value enters it |
| `GameBoy.GbcFilter` | gbc/gameboy.py:45-75 | the script's loop leaves each cell (i, j) holding the same shade of its own old value as the service's filter |
| `GameBoy.FiltersAgree` | gbc/gameboy.py:45-75 | the two copies of the filter, run on equal grids, leave equal grids |
| `Resize.Shrink` | gbc/images.py:43-59 | a landscape image gets width 128 and height floor(128*h/w); a portrait one height 128 and width floor(128*w/h); a square one 128x128 |
| `Resize.Grow` | gbc/images.py:61-63 | the result has exactly the requested width and height |
| `Resize.ShortSideBelowBound` | gbc/images.py:47-54 | when the sides differ both targets are at most 128 and the short side is strictly below 128 |
| `Resize.ShortSideZero` | gbc/images.py:47-54 | the short side rounds down to 0 exactly when 128 times it is less than the long side, for landscape and portrait alike |
| `Resize.ShrinkKeepsOrientation` | gbc/gameboy.py:27-38 | shrinking never turns a landscape image into a portrait one or the other way round |
| `Resize.RestoresSize` | gbc/images.py:29-38 | growing the shrunk image to the upload's width and height restores exactly that size |
| `Resize.ShrinkExamples` | gbc/gameboy.py:27-38 | 256x128 and 300x150 shrink to 128x64, 150x300 to 64x128, 100x100 to 128x128 |
| `ImageStore.MatchesStrict` | gbc/images.py:142-144 | a name the pattern matches up to its end is 39 to 41 characters: a UUID, then a dot at index 36 |
| `ImageStore.NameMatches` | gbc/images.py:142-144 | an accepted name is 39 to 42 characters, a UUID and a dot at index 36; if it is not a strict match it ends in a newline |
| `ImageStore.TrailingNewline` | gbc/images.py:142-144 | because of `$`, a strict name is accepted as it is and with one newline appended, and refused with two |
| `ImageStore.StrictNameParts` | gbc/images.py:142-144 | a strictly matching name is a UUID, a dot and a 2-4 letter extension |
| `ImageStore.AcceptedNameIsSafe` | gbc/images.py:142-144 | any name the pattern accepts, trailing newline included, holds no `/` and no `..` |
| `ImageStore.DirPrefix` | gbc/images.py:154 | the directory part of a joined path is the directory followed only by separators |
| `ImageStore.Join` | gbc/images.py:173 | a relative name is appended after the directory part, which starts with the directory; an absolute name replaces the directory |
| `ImageStore.OpenedPathInStorage` | gbc/images.py:170-173 | for an accepted name the opened path is the storage directory followed by the name as a single path component |
| `ImageStore.GuessExtension` | gbc/images.py:152 | exactly the three allowed types have an extension, each a dot and three characters |
| `ImageStore.ExtensionText` | gbc/images.py:152-153 | the formatted extension is four characters: the mapped extension, starting with a dot, or "None" for an unmapped type |
| `ImageStore.NameFor` | gbc/images.py:153 | the stored name starts with the generated identifier and is strictly longer than it |
| `ImageStore.SavedNameMatches` | gbc/images.py:142-153 | an upload of an allowed type with a UUID identifier gets a name the open guard accepts |
| `ImageStore.UnmappedNameNeverOpens` | gbc/images.py:152-153 | an unmapped type yields `<uuid>None`, which the open guard always refuses |
| `ImageStore.FirstEmpty` | gbc/images.py:157-160 | the index where the copy stops: every earlier chunk is non-empty, and the chunk there (if any) is empty |
| `ImageStore.Received` | gbc/images.py:156-162 | nothing is written when the first chunk is empty or there is none; something is written when the first chunk is not empty |
| `ImageStore.ReceivedStopsAtEmpty` | gbc/images.py:157-162 | chunks after the first empty one are never written; the file gets the earlier chunks, in order |
| `ImageStore.ReceivedAll` | gbc/images.py:157-162 | a stream with no empty chunk is copied whole |
| `ImageStore.ReceivedIsPrefix` | gbc/images.py:157-162 | the written bytes are a prefix of the stream's whole content |
| `ImageStore.Lookup` | gbc/images.py:168-177 | a refused name gives InvalidName and nothing else does; an accepted name with no file at the joined path gives MissingFile and nothing else does; an accepted name whose file exists opens exactly that file's bytes with their exact length |
| `ImageStore.SaveThenOpen` | gbc/images.py:151-177 | opening the name under which an allowed upload was stored yields exactly the stored bytes and their length |
| `ImageStore.Store.constructor` | gbc/images.py:146-149 | a store over the given directory and files, with nothing opened yet |
| `ImageStore.Store.Save` | gbc/images.py:151-166 | returns uuid + extension text; the file at the joined path ends up as the pipeline applied to the chunks read before the first empty one; exactly one path is opened |
| `ImageStore.Store.WriteStream` | gbc/images.py:156-162 | the file at the path receives exactly the in-order concatenation of the chunks read before the first empty one, replacing what it held; the path is opened once |
| `ImageStore.Store.Open` | gbc/images.py:168-177 | the result is `Lookup`'s; a refused name opens no file, and an accepted one opens exactly the joined path |

## Left out

- The imaging library is not modelled: decoding, `convert('L')`, the resampling kernels of `resize`, `fromarray` and encoding. Only the target sizes are modelled. The rewrite of the stored file is the `transform` argument of `Save`.
- The `run` and `run_filter` drivers, the `__main__` entry point and `print` are not modelled. Their size property is `Resize.RestoresSize`, and their filter step is `GbcFilter`.
- Resize.Shrink: computes the short side with exact integer floor division, while the source computes `int((128/width)*height)` in floating point. When the floating-point product rounds to just below an integer, the source can give a short side one pixel smaller than the model.
- Resize.Shrink: a short side that rounds down to 0 (a landscape image wider than 128 times its height, or the portrait mirror; see `Resize.ShortSideZero`) makes the imaging library's `resize` raise, so `save` fails after the raw bytes are written and returns no name. The model gives the size with a 0 side and does not capture the failure; `Resize.RestoresSize` holds only for the size arithmetic.
- ImageStore.GuessExtension: is a fixed table (gif to `.gif`, jpeg to `.jpg`, png to `.png`, anything else unmapped). `mimetypes.guess_extension` depends on the platform. It can answer `.jpe` for JPEG on older Pythons, and it maps many other types.
- `mimetypes.guess_type` in `Item.on_get` is not modelled; it only sets the response header.
- `uuid.uuid4` is not modelled: the identifier is the `uuid` argument of `Save`. `IsUuid` describes its textual form where a lemma needs it.
- ImageStore.Store.Save: does not model an I/O failure while writing or while the pipeline rewrites the file. Neither does it model the file being briefly visible with raw bytes before the rewrite. The stream is the sequence of chunks its `read(4096)` calls return, and the 4096-byte bound on each chunk is not checked.
- ImageStore.Store.Open: the returned stream is the file's contents as a byte sequence. The length is the length of those contents, standing for `os.path.getsize`.
- The falcon resources `Collection.on_get`, `Collection.on_post` and `Item.on_get` are not modelled. They are HTTP plumbing, and the listing returns a fixed placeholder.
- Concurrent requests are not modelled.
