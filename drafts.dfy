/** The three versions of `CSVProcessor` differ in a few decisions; the rest of
    the model is written once and asks the draft at each of them. */
module Drafts {

  /** `Current` is csv_processor.py, `Second` csv_processor2.py and `Earliest`
      csv_processor_old.py. */
  datatype Draft = Current | Second | Earliest {

    /** csv_processor.py counts `duplicated()` before `drop_duplicates`; the
        others count after dropping. */
    predicate CountsBeforeDrop() { this == Current }

    /** csv_processor.py checks that the source is a file before moving it and
        that the destination is one afterwards, and rewraps move errors. */
    predicate ChecksMove() { this == Current }

    /** csv_processor.py sends a rejected file to `self.error_dir`, an attribute
        its constructor never sets; the others send it to `processed_dir`. */
    predicate RoutesRejectedToErrorDir() { this == Current }

    /** csv_processor.py lists the input folder with `os.listdir` and keeps names
        ending in ".csv"; the others match `*.csv` in it with `glob`. */
    predicate ListsDirectory() { this == Current }

    /** csv_processor.py collects every metadata record in a list and, after
        the loop, calls `self.save_metadata_collection`, which is not defined. */
    predicate CollectsMetadata() { this == Current }
  }
}
