/** Session ids of outgoing SD messages. */
module SessionHandler {
  import opened Bytes

  datatype Session = Session(sessionId: int, rebootFlag: bool)

  /** The last id was 0, as before the first message, or on the wire. */
  predicate Usable(s: Session) {
    InU16(s.sessionId)
  }

  function Updated(s: Session): Session {
    Session(if s.sessionId + 1 > 0xFFFF then 1 else s.sessionId + 1, false)
  }

  /** What the next message carries: the next id, and the reboot flag as it was. */
  function Given(s: Session): Session {
    Session(Updated(s).sessionId, s.rebootFlag)
  }

  function UpdatedTimes(s: Session, n: nat): Session {
    if n == 0 then s else Updated(UpdatedTimes(s, n - 1))
  }

  /** The ids run through 1..0xFFFF in turn and are never 0; the reboot flag is only on the first
      message. */
  lemma {:induction false} SessionIds(n: nat)
    ensures var s := UpdatedTimes(Session(0, true), n);
            && s.sessionId == (if n == 0 then 0 else (n - 1) % 0xFFFF + 1)
            && Given(s) == Session(n % 0xFFFF + 1, n == 0)
  {
    if n > 0 {
      SessionIds(n - 1);
    }
  }

  class Handler {
    var sessionId: int
    var rebootFlag: bool

    function View(): Session
      reads this
    {
      Session(sessionId, rebootFlag)
    }

    constructor (initialValue: int)
      ensures View() == Session(initialValue, true)
    {
      sessionId := initialValue;
      rebootFlag := true;
    }

    method UpdateSession() returns (id: int, reboot: bool)
      modifies this
      ensures View() == Updated(old(View()))
      ensures Session(id, reboot) == Given(old(View()))
    {
      sessionId := sessionId + 1;
      if sessionId > 0xFFFF {
        sessionId := 1;
      }
      reboot := rebootFlag;
      rebootFlag := false;
      return sessionId, reboot;
    }
  }
}
