/** `PurePosixPath`: how a relative path string is split into components and printed back. */
module PosixPath {

  /** `s.split("/")` */
  function Split(s: string): (r: seq<string>)
    ensures r != []
  {
    if s == "" then [""]
    else
      var rest := Split(s[1..]);
      if s[0] == '/' then [""] + rest else [[s[0]] + rest[0]] + rest[1..]
  }

  /** `PurePosixPath(s).parts` of a relative path: empty and "." components vanish. */
  function Parts(s: string): seq<string> {
    Kept(Split(s))
  }

  function Kept(components: seq<string>): seq<string> {
    if components == [] then []
    else
      var rest := Kept(components[1..]);
      if components[0] == "" || components[0] == "." then rest else [components[0]] + rest
  }

  /** `PurePosixPath(*parts).as_posix()`; the empty path prints as ".". */
  function AsPosix(parts: seq<string>): string {
    if parts == [] then "." else Join(parts)
  }

  function Join(parts: seq<string>): string
    requires parts != []
  {
    if |parts| == 1 then parts[0] else parts[0] + "/" + Join(parts[1..])
  }

  /** `safe_relative_path` */
  predicate SafeRelativePath(value: string) {
    value != "" && '\\' !in value && value[0] != '/' && ".." !in Parts(value)
  }
}
