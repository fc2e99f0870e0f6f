/**
 * One entry produced by `std::filesystem::recursive_directory_iterator`. A
 * traversal is the sequence of entries it yields, in iteration order; entries
 * whose inspection throws (and are skipped by the `catch (...) { continue; }`
 * of the callers) are simply absent from it.
 */
module DirEntry {
  /** `path` is the full path, `name` its last component, `regular` whether
      it is a regular file and `size` its size in bytes. */
  datatype Entry = Entry(path: string, name: string, regular: bool, size: nat)
}
