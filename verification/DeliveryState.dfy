/** The lifecycle of a delivery job and the table of legal transitions. */
module DeliveryState {

  datatype DeliveryState = NotConfigured | Pending | Processing | RetryWait | Delivered | DeadLetter

  predicate IsTerminal(s: DeliveryState) {
    s.Delivered? || s.DeadLetter? || s.NotConfigured?
  }

  predicate CanTransition(from: DeliveryState, to: DeliveryState) {
    from == to ||
    match from
    case Pending => to.Processing? || to.DeadLetter?
    case Processing => to.Delivered? || to.RetryWait? || to.DeadLetter?
    case RetryWait => to.Processing? || to.DeadLetter?
    case Delivered => to.Pending?
    case DeadLetter => to.Pending?
    case NotConfigured => to.Pending?
  }

  /** The whole table: staying put, and these ten moves. */
  lemma TransitionTable(from: DeliveryState, to: DeliveryState)
    ensures CanTransition(from, to) <==> from == to || (from, to) in {
      (Pending, Processing), (Pending, DeadLetter),
      (Processing, Delivered), (Processing, RetryWait), (Processing, DeadLetter),
      (RetryWait, Processing), (RetryWait, DeadLetter),
      (Delivered, Pending), (DeadLetter, Pending), (NotConfigured, Pending)
    }
    ensures IsTerminal(from) <==> from in {Delivered, DeadLetter, NotConfigured}
  {
  }
}
