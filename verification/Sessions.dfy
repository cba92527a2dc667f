/** The ids by which clients' sessions are known throughout the daemon. */
module Sessions {
  type SessionId = int
}
