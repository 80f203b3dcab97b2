/** The exceptions raised by the core, one constructor per exception the model distinguishes. */
module Errors {

  datatype Error =
    | InvalidAddress(address: string)   // ValueError from the address check of a stage executor
    | InvalidNetwork(cidr: string)      // ValueError from the network check of host discovery
    | InvalidLiteral(text: string)      // ValueError from int() on a port entry
    | EmptyPathName(path: string)       // ValueError from Path.with_suffix on a path with no name
    | ScanTimeout(address: string)      // ScanTimeout raised by the port scanner
    | TimeoutExpired                    // subprocess.TimeoutExpired escaping host discovery
    | StateError                        // StateError: a state file could not be written or read
    | StateCorruptedError               // StateCorruptedError: a state file is not valid JSON
    | AttributeError                    // .get called on a loaded state that is not an object
    | NotIterable                       // a pending_ips value that is a number or a boolean
    | UnsupportedTargets                // a pending_ips value this model does not iterate

  /** `except ValueError` would catch exactly these. */
  predicate IsValueError(e: Error) {
    e.InvalidAddress? || e.InvalidNetwork? || e.InvalidLiteral? || e.EmptyPathName?
  }

  /** `except StateError` would catch exactly these: StateCorruptedError subclasses StateError. */
  predicate IsStateError(e: Error) {
    e.StateError? || e.StateCorruptedError?
  }
}
