/**
 * The ways a run of the log processor stops early. The program itself panics
 * at each of these points; the model names them instead.
 */
module LogErrors {

  datatype Error =
    /** The log holds no newline, so there is no header line to drop. */
    | MissingHeader
    /** Record `line` (0-based, after the header) has no field number `field`. */
    | MissingField(line: nat, field: nat)
    /** The ramp field of record `line` is not a `u64`. */
    | BadRamp(line: nat)
    /** The vped field of record `line` is not an `isize`. */
    | BadVped(line: nat)
    /** There are no records, so `vpeds.len() - 1` underflows. */
    | NoRecords
    /** The record at index `run` closes a group but every de-duplicated ramp is already used. */
    | RampsExhausted(run: nat)
}
