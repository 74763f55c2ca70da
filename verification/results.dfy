/** Outcomes of the library calls in the pipeline that can refuse their input. */
module Results {

  /** The ways the post-processing can stop before producing a table. */
  datatype Error =
    /** `np.select` was given a different number of conditions and choices. */
    | SelectLengthMismatch(conditions: nat, choices: nat)
    /** `np.select` was given no condition at all. */
    | SelectEmpty
    /** A column of values was assigned to a frame with a different number of rows. */
    | ColumnLengthMismatch(rows: nat, values: nat)

  datatype Result<+T> = Ok(value: T) | Err(error: Error)
}
