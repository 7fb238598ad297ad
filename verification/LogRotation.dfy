/**
 Rotation of the log files of the master: file `i` becomes file `i + 1`, from the highest
 index down. File 0 is the one written to. File operations are assumed to succeed.
 */
module LogRotation {

  const MAX_FILE_SIZE: nat := 1024 * 1024
  const MAX_FILES: nat := 100

  type Content = string

  /** What was at `i` is at `i + 1`, only the old last file is lost, file 0 is new, and files beyond the last index are
      left alone. */
  ghost predicate Rotated(before: map<nat, Content>, after: map<nat, Content>) {
    && (forall i: nat | i < 99 :: (i + 1 in after <==> i in before) && (i in before ==> after[i + 1] == before[i]))
    && 0 in after && after[0] == ""
    && (forall i: nat | i >= 100 :: (i in after <==> i in before) && (i in after ==> after[i] == before[i]))
  }

  class LocalLog {
    var files: map<nat, Content>   // existing files by index

    constructor (existing: map<nat, Content>)
      ensures files == existing
    {
      files := existing;
    }

    /** Every index may be missing. A kept file is never overwritten. */
    method Rotate()
      modifies this
      ensures Rotated(old(files), files)
    {
      var i := MAX_FILES - 1;
      while i >= 0
        invariant -1 <= i < MAX_FILES
        invariant forall k: nat | i < k && k + 1 < MAX_FILES :: (k + 1 in files <==> k in old(files)) && (k in old(files) ==> files[k + 1] == old(files)[k])
        invariant i + 1 < MAX_FILES ==> i + 1 !in files
        invariant forall k: nat | k <= i || k >= MAX_FILES :: (k in files <==> k in old(files)) && (k in files ==> files[k] == old(files)[k])
      {
        if i in files {
          if i == MAX_FILES - 1 {
            files := files - {i};
          } else {
            files := files[i + 1 := files[i]] - {i};
          }
        }
        i := i - 1;
      }
      files := files[0 := ""];
    }

    method RotateIfLarge(size: nat)
      modifies this
      ensures if size < 1_048_576 then files == old(files) else Rotated(old(files), files)
    {
      if size >= MAX_FILE_SIZE {
        Rotate();
      }
    }
  }
}
