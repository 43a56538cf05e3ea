/** The parts of .NET and ASP.NET Core the backend leans on: bytes and 32-bit
    integers, an uploaded form file, the exceptions that escape a request,
    UTC time stamps, and System.IO.Path.Combine on a Unix host. */
module AspNet {

  newtype byte = x: int | 0 <= x < 0x100

  /** C#'s `int`. */
  newtype int32 = x: int | -0x8000_0000 <= x < 0x8000_0000

  /** An IFormFile: the client's file name and the uploaded bytes; its
      Length is the number of bytes. */
  datatype FormFile = FormFile(fileName: string, contents: seq<byte>)
  {
    function Length(): nat
    {
      |contents|
    }
  }

  /** The exceptions that leave an action: a failed status from
      EnsureSuccessStatusCode, a transport failure of the HTTP client, an
      I/O failure of the file system, and a failed database save. */
  datatype Failure =
    | HttpRequestError(statusCode: int)
    | TransportError(message: string)
    | IoError(path: string)
    | DbUpdateError

  /** A DateTime of kind UTC, as a tick count. */
  datatype DateTime = DateTime(ticks: int)

  const DirectorySeparator: char := '/'

  predicate IsRooted(path: string)
  {
    path != [] && path[0] == DirectorySeparator
  }

  /** The directory part that Combine puts in front of a relative name: the
      directory itself when it already ends in a separator, else the
      directory and one separator. */
  function AsDirectory(dir: string): (r: string)
    ensures r != [] ==> r[|r| - 1] == DirectorySeparator
  {
    if dir == [] then []
    else if dir[|dir| - 1] == DirectorySeparator then dir
    else dir + [DirectorySeparator]
  }

  /** Path.Combine(path1, path2): an empty second part gives the first, a
      rooted second part or an empty first part gives the second, and
      otherwise the second follows the first, with a separator inserted only
      when the first does not already end in one. */
  function Combine(path1: string, path2: string): (r: string)
    ensures path2 != [] && !IsRooted(path2) ==> r == AsDirectory(path1) + path2
    ensures IsRooted(path2) ==> r == path2
    ensures path2 == [] ==> r == path1
  {
    if path2 == [] then path1
    else if path1 == [] || IsRooted(path2) then path2
    else if path1[|path1| - 1] == DirectorySeparator || path2[0] == DirectorySeparator then path1 + path2
    else path1 + [DirectorySeparator] + path2
  }
}
