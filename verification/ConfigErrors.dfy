/** How commands are answered and what ipmi-config makes of it. */
module ConfigErrors {

  datatype Reply = Good | Refused | Broken
  datatype Err = Success | NonFatal | Fatal

  /** A command that is refused ends in a non-fatal error, one that breaks down in
      a fatal one. */
  predicate AnsweredAs(r: Reply, e: Err) {
    (r.Good? <==> e.Success?) && (r.Refused? <==> e.NonFatal?) && (r.Broken? <==> e.Fatal?)
  }

  function ErrOf(r: Reply): Err {
    match r case Good => Success case Refused => NonFatal case Broken => Fatal
  }
}
