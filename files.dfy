/** Directories as the driver uses them: a flat listing of file names to
    file contents. */
module Files {

  type Bytes = seq<bv8>

  /** What `os.listdir` of a directory shows, with each file's bytes. */
  type Listing = map<string, Bytes>

  /** A directory whose files are written in place: the repository's
      `utils/generated`, the scratch directory, or the `-o` directory. */
  class Directory {
    var files: Listing

    /** A directory that holds nothing yet, such as a fresh temporary one. */
    constructor Empty()
      ensures files == map[]
    {
      files := map[];
    }
  }

  /** Writing no files leaves a listing as it was. */
  lemma UnionWithEmpty(files: Listing)
    ensures files + map[] == files
    ensures map[] + files == files
  {
  }
}
