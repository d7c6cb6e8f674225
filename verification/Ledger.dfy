/** Tickets 0, 1, ..., n - 1, each once: the ledger against which every request and event is settled. */
module Ledger {

  function Tickets(n: nat): multiset<nat> {
    if n == 0 then multiset{} else Tickets(n - 1) + multiset{n - 1}
  }

  lemma {:induction false} TicketCount(n: nat, t: nat)
    ensures Tickets(n)[t] == if t < n then 1 else 0
  {
    if n > 0 {
      TicketCount(n - 1, t);
    }
  }
}
