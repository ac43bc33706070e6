/** The "unavailable" marker. The telemetry code signals a failed or missing
    reading with NaN; here a reading is either Some(value) or None. */
module Optional {

  datatype Option<+T> = None | Some(value: T)

}
