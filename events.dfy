/** The notices the program shows to the user (Windows toasts); each is recorded, not shown. */
module Events {
  datatype Notice =
    | TooManyErrors(station: string)     // logmanyerrors, once per latch
    | StoreUnreadable                    // the pairing database could not be parsed
    | StoreCloseFailed                   // ... and the file was never opened
    | NothingPaired                      // no serial in the pairing database
    | ScanFailed                         // a scan stopped on an advert it could not parse
    | NotAllFound(found: nat, expected: nat)  // the scans gave up before all stations were found
    | ConfigUnreadable                   // the configuration file could not be read
}
