/** The two callbacks through which a transport tells the application that its link is lost or mended. */
module Callbacks {
  datatype Callback = OnDisconnect | OnReconnect

  /** A disconnect first, and then by turns. */
  ghost predicate Alternates(trace: seq<Callback>) {
    forall i :: 0 <= i < |trace| ==> trace[i] == if i % 2 == 0 then OnDisconnect else OnReconnect
  }
}
