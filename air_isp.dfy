/** The flasher's configuration and the two services it offers every command:
    choosing the peripheral that talks to the chip, and reading the firmware
    file into a list of memory images. */
module AirIsp {
  import opened Base
  import opened HexToBin

  /** How write progress is reported (`Progress::None`, `Bar`, `Percent`). */
  datatype Progress = Quiet | Bar | Percent

  /** The parsed command line. The getters of the original are the field
      selectors of this datatype. */
  datatype Config = Config(
    port: string,
    baud: u32,
    chip: string,
    trace: bool,
    connectAttempts: u32,
    before: string,
    after: string,
    language: string,
    peripheral: string)

  /** Which peripheral `get_peripheral_handle` constructs. Opening it is done
      by the peripheral's own constructor. */
  datatype PeripheralKind = SwdProbe | UartPort

  /** The peripheral named by the configuration, compared without regard to
      ASCII case; any other name is not supported. */
  function GetPeripheralHandle(c: Config): (r: Outcome<PeripheralKind>)
    ensures r.Ok? || r == Err(NotSupportPeripheral)
    ensures r == Ok(SwdProbe) <==> Lower(c.peripheral) == "swd"
    ensures r == Ok(UartPort) <==> Lower(c.peripheral) == "uart"
  {
    var name := Lower(c.peripheral);
    if name == "swd" then Ok(SwdProbe)
    else if name == "uart" then Ok(UartPort)
    else Err(NotSupportPeripheral)
  }

  /** The choice does not depend on how the name is capitalised. */
  lemma PeripheralCaseInsensitive(c: Config)
    ensures GetPeripheralHandle(c) == GetPeripheralHandle(c.(peripheral := Lower(c.peripheral)))
  {
    LowerIdempotent(c.peripheral);
  }

  // ---------------------------------------------------------------------------
  // File names.

  /** The position of the last `c` in `s`. */
  function LastIndexOf(s: string, c: char): (r: Option<nat>)
    ensures r.None? <==> c !in s
    ensures r.Some? ==> r.value < |s| && s[r.value] == c && c !in s[r.value + 1..]
  {
    if s == [] then None
    else if s[|s| - 1] == c then Some(|s| - 1)
    else LastIndexOf(s[..|s| - 1], c)
  }

  /** The last component of a path: what follows the last separator. */
  function FileName(path: string): string
  {
    match LastIndexOf(path, '/')
    case None => path
    case Some(k) => path[k + 1..]
  }

  /** `Path::extension`: what follows the last dot of the file name, unless
      the name has no dot or its only dot is the leading one. */
  function Extension(path: string): Option<string>
  {
    var name := FileName(path);
    match LastIndexOf(name, '.')
    case None => None
    case Some(k) => if k == 0 then None else Some(name[k + 1..])
  }

  lemma LastIndexOfAppend(s: string, c: char, t: string)
    requires c !in t
    ensures LastIndexOf(s + [c] + t, c) == Some(|s|)
  {
    var u := s + [c] + t;
    assert u[|s|] == c;
    assert u[|s| + 1..] == t;
  }

  /** A file `stem.ext` in directory `dir` has extension `ext`. */
  lemma ExtensionOf(dir: string, stem: string, ext: string)
    requires stem != [] && '/' !in stem && '/' !in ext && '.' !in ext
    ensures Extension(dir + "/" + stem + "." + ext) == Some(ext)
  {
    var name := stem + "." + ext;
    assert '/' !in name by {
      forall i | 0 <= i < |name|
        ensures name[i] != '/'
      {
        if i < |stem| { assert name[i] == stem[i]; }
        else if i > |stem| { assert name[i] == ext[i - |stem| - 1]; }
      }
    }
    assert dir + "/" + stem + "." + ext == dir + ['/'] + name;
    LastIndexOfAppend(dir, '/', name);
    assert FileName(dir + "/" + stem + "." + ext) == name;
    LastIndexOfAppend(stem, '.', ext);
    assert name == stem + ['.'] + ext;
    assert name[|stem| + 1..] == ext;
  }

  /** A file name without any dot has no extension. */
  lemma NoExtension(path: string)
    requires '.' !in FileName(path)
    ensures Extension(path) == None
  {
  }

  // ---------------------------------------------------------------------------
  // Reading the firmware file.

  /** The files the program can open, by path. */
  type FileSystem = map<string, seq<u8>>

  /** What `read_to_string` makes of the bytes: the text, or nothing when the
      bytes are not UTF-8. */
  type TextDecoder = seq<u8> -> Option<string>

  /** `read_file`: a file ending in `.hex` is decoded as Intel HEX; any other
      file is one image of its raw bytes at the address `0xFFFF_FFFF`, which
      the writer replaces by the command line address. An empty file is an
      error; a file name without extension panics. */
  function ReadFile(fs: FileSystem, utf8: TextDecoder, path: string): (r: Outcome<seq<Bin>>)
    ensures path !in fs ==> r == Err(FileOpenFailed)
    ensures path in fs && fs[path] == [] ==> r == Err(FileEmpty)
    ensures r.Ok? ==> path in fs && fs[path] != [] && Extension(path).Some?
    ensures r.Ok? && Extension(path) != Some("hex") ==> r.value == [Bin(U32Max, fs[path])]
  {
    if path !in fs then Err(FileOpenFailed)
    else
      var bytes := fs[path];
      if |bytes| == 0 then Err(FileEmpty)
      else match Extension(path)
        case None => Panic
        case Some(suffix) =>
          if suffix == "hex" then
            match utf8(bytes)
            case None => Err(NotUtf8)
            case Some(text) => Decode(text)
          else Ok([Bin(0xFFFF_FFFF, bytes)])
  }

  /** A HEX file written by a linker reads back as the images it describes. */
  lemma ReadHexFile(fs: FileSystem, utf8: TextDecoder, path: string, segs: seq<Segment>)
    requires segs != [] && WellFormed(segs)
    requires path in fs && fs[path] != [] && Extension(path) == Some("hex")
    requires utf8(fs[path]) == Some(HexFile(segs))
    ensures ReadFile(fs, utf8, path) == Ok(Bins(segs))
  {
    HexFileRoundTrip(segs);
  }

  /** Any other file is passed on byte for byte, whatever its contents. */
  lemma ReadRawFile(fs: FileSystem, utf8: TextDecoder, path: string, ext: string)
    requires path in fs && fs[path] != [] && Extension(path) == Some(ext) && ext != "hex"
    ensures ReadFile(fs, utf8, path) == Ok([Bin(U32Max, fs[path])])
  {
  }

  /** A non-empty file whose name has no extension makes the program panic. */
  lemma ReadFileWithoutExtension(fs: FileSystem, utf8: TextDecoder, path: string)
    requires path in fs && fs[path] != [] && '.' !in FileName(path)
    ensures ReadFile(fs, utf8, path) == Panic
  {
    NoExtension(path);
  }
}
