/**
 * The part of the file system the dumper sees: a map from a path (relative
 * to the program's install folder, `\` separated) to a file or a directory.
 */
module Files {

  datatype Node = File(contents: string) | Directory

  type FileSystem = map<string, Node>

  /** `File.Exists(path)`: only a file answers yes, a directory does not. */
  predicate FileExists(fs: FileSystem, path: string)
  {
    path in fs && fs[path].File?
  }

  /** `Directory.Exists(path)` */
  predicate DirectoryExists(fs: FileSystem, path: string)
  {
    path in fs && fs[path].Directory?
  }

  /** `File.WriteAllText(path, text)`: creates or replaces the file. */
  function WriteAllText(fs: FileSystem, path: string, text: string): FileSystem
  {
    fs[path := File(text)]
  }

  /** `Directory.CreateDirectory(path)` for a folder that does not yet exist. */
  function CreateDirectory(fs: FileSystem, path: string): FileSystem
  {
    fs[path := Directory]
  }
}
