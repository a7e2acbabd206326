/**
 * The image store: how an upload is named, how its bytes reach storage, and
 * which names may be opened again.
 *
 * The storage directory is modelled as a map from path to file contents. The
 * injected `fopen` is that map plus a log of the paths handed to it, so that a
 * contract can say that a name was refused before any file was opened. The
 * injected `uuidgen` becomes the `uuid` argument of `Save`, and the image
 * pipeline that rewrites the stored file becomes its `transform` argument.
 */
module ImageStore {
  import Images

  type byte = x: int | 0 <= x < 256

  datatype Option<T> = None | Some(value: T)

  /** Why `open` raised `IOError`; the HTTP layer reports either as "not found". */
  datatype IOError =
    | InvalidName   // the name failed the pattern; nothing was opened
    | MissingFile   // the name passed, but no file has that path

  datatype Result<T> = Ok(value: T) | Err(error: IOError)

  /** What `open` hands back: a readable stream and its length in bytes. */
  datatype Opened = Opened(stream: seq<byte>, length: nat)

  // ---------------------------------------------------------------------------
  // Names
  // ---------------------------------------------------------------------------

  predicate IsHexDigit(c: char) {
    '0' <= c <= '9' || 'a' <= c <= 'f'
  }

  predicate IsLowerLetter(c: char) {
    'a' <= c <= 'z'
  }

  /** Character `k` of an identifier: a hyphen between the 8-4-4-4-12 groups, a lowercase hex digit elsewhere. */
  predicate UuidCharAt(k: int, c: char) {
    if k == 8 || k == 13 || k == 18 || k == 23 then c == '-' else IsHexDigit(c)
  }

  /** The textual form of a version-4 UUID, as `str(uuid.uuid4())` writes it. */
  predicate IsUuid(s: string) {
    |s| == 36 && forall k :: 0 <= k < 36 ==> UuidCharAt(k, s[k])
  }

  /** The whole of `name` is an identifier, a dot and two to four lowercase letters. */
  function MatchesStrict(name: string): (ok: bool)
    ensures ok ==> 39 <= |name| <= 41 && IsUuid(name[..36]) && name[36] == '.'
  {
    39 <= |name| <= 41 &&
    (forall k :: 0 <= k < 36 ==> UuidCharAt(k, name[k])) &&
    name[36] == '.' &&
    (forall k :: 37 <= k < |name| ==> IsLowerLetter(name[k]))
  }

  /**
   * The store's name pattern as `re.match` applies it: anchored at the start,
   * and ending with `$`, which also matches just before a final newline.
   */
  function NameMatches(name: string): (ok: bool)
    ensures ok ==> 39 <= |name| <= 42 && IsUuid(name[..36]) && name[36] == '.'
    ensures ok && !MatchesStrict(name) ==> name[|name| - 1] == '\n'
  {
    MatchesStrict(name) ||
    (|name| > 0 && name[|name| - 1] == '\n' && MatchesStrict(name[..|name| - 1]))
  }

  /** No two consecutive dots anywhere in `s`. */
  predicate NoDotDot(s: string) {
    forall k :: 0 <= k < |s| - 1 ==> !(s[k] == '.' && s[k + 1] == '.')
  }

  /** A strict name is an identifier, a dot and the extension, and nothing else. */
  lemma StrictNameParts(name: string)
    requires MatchesStrict(name)
    ensures IsUuid(name[..36])
    ensures name == name[..36] + "." + name[37..]
    ensures 2 <= |name[37..]| <= 4
  {
    assert name == name[..36] + "." + name[37..];
  }

  /** A name the pattern accepts holds no path separator and no `..`. */
  lemma AcceptedNameIsSafe(name: string)
    requires NameMatches(name)
    ensures '/' !in name
    ensures NoDotDot(name)
  {
    var m := if MatchesStrict(name) then name else name[..|name| - 1];
    assert MatchesStrict(m);
    assert forall k :: 0 <= k < |m| ==> name[k] == m[k];
    assert forall k :: |m| <= k < |name| ==> name[k] == '\n';
    forall k | 0 <= k < |name|
      ensures name[k] != '/'
      ensures name[k] == '.' ==> k == 36
    {
      if k < 36 {
        assert UuidCharAt(k, m[k]);
      } else if 37 <= k < |m| {
        assert IsLowerLetter(m[k]);
      }
    }
  }

  /**
   * Because of `$`, a strict name is accepted both as it is and with one
   * newline appended, but not with two.
   */
  lemma TrailingNewline(m: string)
    requires MatchesStrict(m)
    ensures NameMatches(m) && NameMatches(m + "\n")
    ensures !NameMatches(m + "\n\n")
  {
    var n1, n2 := m + "\n", m + "\n\n";
    assert n1[..|n1| - 1] == m;
    assert n2[..|n2| - 1] == n1;
    assert !MatchesStrict(n1) by {
      if |n1| <= 41 { assert !IsLowerLetter(n1[|n1| - 1]); }
    }
    assert !MatchesStrict(n2) by {
      if |n2| <= 41 { assert !IsLowerLetter(n2[|n2| - 1]); }
    }
  }

  // ---------------------------------------------------------------------------
  // Paths
  // ---------------------------------------------------------------------------

  /** The directory part `os.path.join` puts in front of a relative name. */
  function DirPrefix(dir: string): (p: string)
    ensures |p| >= |dir| && p[..|dir|] == dir
    ensures forall k :: |dir| <= k < |p| ==> p[k] == '/'
  {
    if dir == [] || dir[|dir| - 1] == '/' then dir else dir + "/"
  }

  /** `os.path.join(dir, name)` on a POSIX system. */
  function Join(dir: string, name: string): (path: string)
    ensures !(|name| > 0 && name[0] == '/') ==>
      |path| == |DirPrefix(dir)| + |name| && path[..|dir|] == dir && path[|DirPrefix(dir)|..] == name
    ensures |name| > 0 && name[0] == '/' ==> path == name
  {
    if |name| > 0 && name[0] == '/' then name else DirPrefix(dir) + name
  }

  /**
   * The path `open` reads is the storage directory followed by the accepted
   * name as one path component: no separator and no `..` to climb out with.
   */
  lemma OpenedPathInStorage(storagePath: string, name: string)
    requires NameMatches(name)
    ensures Join(storagePath, name) == DirPrefix(storagePath) + name
    ensures '/' !in name && NoDotDot(name)
  {
    AcceptedNameIsSafe(name);
    assert name[0] in name;
  }

  // ---------------------------------------------------------------------------
  // Content types and extensions
  // ---------------------------------------------------------------------------

  /** The extension the store gives each content type it knows. */
  function GuessExtension(contentType: string): (e: Option<string>)
    ensures e.Some? <==> Images.ValidateImageType(contentType) == Images.Pass
    ensures e.Some? ==> |e.value| == 4 && e.value[0] == '.'
  {
    if contentType == "image/gif" then Some(".gif")
    else if contentType == "image/jpeg" then Some(".jpg")
    else if contentType == "image/png" then Some(".png")
    else None
  }

  /** The text `str.format` makes of the lookup's answer: the extension, or "None". */
  function ExtensionText(contentType: string): (t: string)
    ensures |t| == 4
    ensures GuessExtension(contentType).None? ==> t == "None"
    ensures GuessExtension(contentType).Some? ==> t[0] == '.'
  {
    match GuessExtension(contentType)
    case Some(e) => e
    case None => "None"
  }

  /** The name `save` gives an upload: the identifier followed directly by the extension text. */
  function NameFor(uuid: string, contentType: string): (name: string)
    ensures |name| > |uuid| && name[..|uuid|] == uuid
  {
    uuid + ExtensionText(contentType)
  }

  /** Every upload of an allowed type gets a name that `open` accepts. */
  lemma SavedNameMatches(uuid: string, contentType: string)
    requires IsUuid(uuid)
    requires Images.ValidateImageType(contentType) == Images.Pass
    ensures MatchesStrict(NameFor(uuid, contentType))
    ensures NameMatches(NameFor(uuid, contentType))
  {
    var e := GuessExtension(contentType).value;
    var name := NameFor(uuid, contentType);
    assert name == uuid + e;
    assert e == ".gif" || e == ".jpg" || e == ".png";
    forall k | 0 <= k < 36
      ensures UuidCharAt(k, name[k])
    {
      assert name[k] == uuid[k];
    }
    assert name[36] == e[0];
    forall k | 37 <= k < |name|
      ensures IsLowerLetter(name[k])
    {
      assert name[k] == e[k - 36];
    }
  }

  /** An upload of an unknown type would be named `<uuid>None`, which `open` never accepts. */
  lemma UnmappedNameNeverOpens(uuid: string, contentType: string)
    requires IsUuid(uuid)
    requires GuessExtension(contentType).None?
    ensures !NameMatches(NameFor(uuid, contentType))
  {
    var name := NameFor(uuid, contentType);
    assert name == uuid + "None";
    assert name[36] == 'N';
    assert name[|name| - 1] == 'e';
  }

  // ---------------------------------------------------------------------------
  // The upload stream
  // ---------------------------------------------------------------------------

  /** All the chunks, in order, as one byte sequence. */
  function Flatten(chunks: seq<seq<byte>>): seq<byte> {
    if chunks == [] then [] else Flatten(chunks[..|chunks| - 1]) + chunks[|chunks| - 1]
  }

  /** The index of the first empty chunk, or the number of chunks if none is empty. */
  function FirstEmpty(stream: seq<seq<byte>>): (n: nat)
    ensures n <= |stream|
    ensures forall m :: 0 <= m < n ==> stream[m] != []
    ensures n < |stream| ==> stream[n] == []
  {
    if stream == [] || stream[0] == [] then 0 else 1 + FirstEmpty(stream[1..])
  }

  /** The bytes `save` copies: every chunk read before the first empty one, in order. */
  function Received(stream: seq<seq<byte>>): (r: seq<byte>)
    ensures stream == [] || stream[0] == [] ==> r == []
    ensures FirstEmpty(stream) > 0 ==> |r| > 0
  {
    Flatten(stream[..FirstEmpty(stream)])
  }

  lemma {:induction false} FlattenAppend(a: seq<seq<byte>>, b: seq<seq<byte>>)
    ensures Flatten(a + b) == Flatten(a) + Flatten(b)
    decreases |b|
  {
    if b == [] {
      assert a + b == a;
    } else {
      var b' := b[..|b| - 1];
      assert (a + b)[..|a + b| - 1] == a + b';
      FlattenAppend(a, b');
    }
  }

  /** Whatever follows the first empty chunk is never read. */
  lemma {:induction false} ReceivedStopsAtEmpty(before: seq<seq<byte>>, after: seq<seq<byte>>)
    requires forall m :: 0 <= m < |before| ==> before[m] != []
    ensures Received(before + [[]] + after) == Flatten(before)
  {
    var s := before + [[]] + after;
    assert s[|before|] == [];
    assert FirstEmpty(s) == |before|;
    assert s[..|before|] == before;
  }

  /** A stream without an empty chunk is copied whole. */
  lemma {:induction false} ReceivedAll(stream: seq<seq<byte>>)
    requires forall m :: 0 <= m < |stream| ==> stream[m] != []
    ensures Received(stream) == Flatten(stream)
  {
    assert stream[..|stream|] == stream;
  }

  /** The copied bytes are a prefix of everything the stream holds. */
  lemma {:induction false} ReceivedIsPrefix(stream: seq<seq<byte>>)
    ensures |Received(stream)| <= |Flatten(stream)|
    ensures Received(stream) == Flatten(stream)[..|Received(stream)|]
  {
    var n := FirstEmpty(stream);
    assert stream == stream[..n] + stream[n..];
    FlattenAppend(stream[..n], stream[n..]);
  }

  // ---------------------------------------------------------------------------
  // Opening
  // ---------------------------------------------------------------------------

  /** What `open` yields for `name` when the directory holds `files`. */
  function Lookup(files: map<string, seq<byte>>, storagePath: string, name: string): (r: Result<Opened>)
    ensures r.Ok? ==> r.value.length == |r.value.stream|
    ensures r.Ok? ==> NameMatches(name) && DirPrefix(storagePath) + name in files
    ensures r.Ok? ==> r.value.stream == files[DirPrefix(storagePath) + name]
    ensures r == Err(InvalidName) <==> !NameMatches(name)
    ensures r == Err(MissingFile) <==> NameMatches(name) && DirPrefix(storagePath) + name !in files
    ensures NameMatches(name) && DirPrefix(storagePath) + name in files ==>
      r == Ok(Opened(files[DirPrefix(storagePath) + name], |files[DirPrefix(storagePath) + name]|))
  {
    if !NameMatches(name) then Err(InvalidName)
    else
      var path := Join(storagePath, name);
      if path !in files then Err(MissingFile)
      else Ok(Opened(files[path], |files[path]|))
  }

  /** Once an upload of an allowed type is stored, opening the returned name yields exactly the stored bytes. */
  lemma SaveThenOpen(files: map<string, seq<byte>>, storagePath: string, uuid: string,
                     contentType: string, data: seq<byte>)
    requires IsUuid(uuid)
    requires Images.ValidateImageType(contentType) == Images.Pass
    ensures var name := NameFor(uuid, contentType);
      Lookup(files[Join(storagePath, name) := data], storagePath, name) == Ok(Opened(data, |data|))
  {
    SavedNameMatches(uuid, contentType);
  }

  // ---------------------------------------------------------------------------
  // The store
  // ---------------------------------------------------------------------------

  class Store {
    /** The directory every image lives in. */
    const storagePath: string
    /** The files of the storage directory, by path. */
    var files: map<string, seq<byte>>
    /** The paths handed to `fopen`, in order. */
    ghost var openLog: seq<string>

    constructor (storagePath: string, files: map<string, seq<byte>>)
      ensures this.storagePath == storagePath && this.files == files && openLog == []
    {
      this.storagePath := storagePath;
      this.files := files;
      openLog := [];
    }

    /**
     * Stores an upload under `uuid` followed by the extension of its content
     * type: writes the stream's bytes to that path, then lets `transform`
     * rewrite the file.
     */
    method Save(stream: seq<seq<byte>>, contentType: string, uuid: string,
                transform: seq<byte> -> seq<byte>) returns (name: string)
      modifies this
      ensures name == NameFor(uuid, contentType)
      ensures files == old(files)[Join(storagePath, name) := transform(Received(stream))]
      ensures openLog == old(openLog) + [Join(storagePath, name)]
    {
      var ext := ExtensionText(contentType);
      name := uuid + ext;
      var imagePath := Join(storagePath, name);

      WriteStream(imagePath, stream);

      files := files[imagePath := transform(files[imagePath])];
    }

    /**
     * The `with` block of `save`: opens `path` for writing, which empties it,
     * and appends chunk after chunk until the stream yields an empty one.
     */
    method WriteStream(path: string, stream: seq<seq<byte>>)
      modifies this
      ensures files == old(files)[path := Received(stream)]
      ensures openLog == old(openLog) + [path]
    {
      openLog := openLog + [path];
      var written: seq<byte> := [];
      files := files[path := written];
      var k := 0;
      while true
        invariant 0 <= k <= FirstEmpty(stream)
        invariant written == Flatten(stream[..k])
        invariant files == old(files)[path := written]
        invariant openLog == old(openLog) + [path]
        decreases |stream| - k
      {
        var chunk := if k < |stream| then stream[k] else [];
        if chunk == [] {
          break;
        }
        assert stream[..k + 1][..k] == stream[..k];
        assert Flatten(stream[..k + 1]) == written + chunk;
        written := written + chunk;
        files := files[path := written];
        k := k + 1;
      }
      assert k == FirstEmpty(stream);
    }

    /**
     * Opens a stored image for reading. A name that fails the pattern is
     * refused before any file is opened.
     */
    method Open(name: string) returns (r: Result<Opened>)
      modifies this`openLog
      ensures r == Lookup(files, storagePath, name)
      ensures !NameMatches(name) ==> openLog == old(openLog)
      ensures NameMatches(name) ==> openLog == old(openLog) + [Join(storagePath, name)]
    {
      if !NameMatches(name) {
        return Err(InvalidName);
      }
      var imagePath := Join(storagePath, name);
      openLog := openLog + [imagePath];
      if imagePath !in files {
        return Err(MissingFile);
      }
      var stream := files[imagePath];
      r := Ok(Opened(stream, |stream|));
    }
  }
}
