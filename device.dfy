/** The device the app runs on, as far as its readings go: the sysfs-style
    file tree and what a privileged `cat` of a path prints. Every read the
    app makes goes through the functions below. */
module Device {
  import opened Common
  import opened Text

  type Path = string

  /** `files`: the paths that exist; the content when a direct read
      succeeds, None when the path exists but reading it throws.
      `privileged`: the standard output of `cat <path>` run through `su`,
      for the paths where that command runs; a path missing here is a
      privileged command that fails or throws. */
  datatype Device = Device(files: map<Path, Option<string>>, privileged: map<Path, string>)

  /** `File(path).exists()`. */
  predicate Exists(d: Device, p: Path) {
    p in d.files
  }

  /** `File(path).readText()` or opening a `FileReader`: the content, or None
      when the read throws (missing path, no permission). */
  function ReadText(d: Device, p: Path): (r: Option<string>)
    ensures r.Some? ==> Exists(d, p)
  {
    if p in d.files then d.files[p] else None
  }

  /** The output of the privileged `cat <path>`, None when the command fails. */
  function PrivilegedOutput(d: Device, p: Path): Option<string> {
    if p in d.privileged then Some(d.privileged[p]) else None
  }

  /** The first line of the privileged `cat <path>`: `Shell.SU.run(...)[0]`
      or `RootUtils.executeRootCommand`. None when the command fails or
      prints nothing. */
  function PrivilegedFirstLine(d: Device, p: Path): (r: Option<string>)
    ensures r.Some? <==> p in d.privileged && d.privileged[p] != []
    ensures r.Some? ==> r == FirstLine(d.privileged[p])
  {
    match PrivilegedOutput(d, p)
    case Some(out) => FirstLine(out)
    case None => None
  }

  /** A direct read of the first line (`BufferedReader.readLine()`): None when
      the file cannot be opened or is empty. */
  function ReadFirstLine(d: Device, p: Path): (r: Option<string>)
    ensures r.Some? <==> ReadText(d, p).Some? && ReadText(d, p).value != []
    ensures r.Some? ==> r == FirstLine(ReadText(d, p).value)
  {
    match ReadText(d, p)
    case Some(t) => FirstLine(t)
    case None => None
  }
}
