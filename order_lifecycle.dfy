/** The rules of the order state machine that `updateOrderStatus` and
    `deleteOrder` apply to one stored order: a DELIVERED or CANCELLED order is
    frozen, and the new status is parsed only once the order is known to be
    open to change. */
module OrderLifecycle {
  import opened Common
  import opened OrderStatuses
  import opened OrderDomain

  /** The status change applied to a found order: the terminal check comes first,
      then the label parse, then the one field that changes. */
  function ChangeStatus(o: Order, text: string): Result<Order, OrderError>
  {
    if IsTerminal(o.status) then Err(OrderLocked(o.status))
    else
      match Parse(text)
      case None => Err(InvalidStatus(text))
      case Some(s) => Ok(o.(status := s))
  }

  /** The check of `deleteOrder` on a found order. */
  function DeleteCheck(o: Order): Option<OrderError>
  {
    if IsTerminal(o.status) then Some(OrderLocked(o.status)) else None
  }

  /** A terminal order is refused with an IllegalStateException whatever the
      label, a valid one or not. */
  lemma TerminalIsFrozen(o: Order, text: string)
    requires IsTerminal(o.status)
    ensures ChangeStatus(o, text) == Err(OrderLocked(o.status))
    ensures ExceptionOf(ChangeStatus(o, text).error) == IllegalState
    ensures DeleteCheck(o) == Some(OrderLocked(o.status))
  {
  }

  /** On an order open to change, a label that names no status in any mix of
      cases is refused with an IllegalArgumentException carrying the label. */
  lemma UnknownLabelRejected(o: Order, text: string)
    requires !IsTerminal(o.status)
    requires forall s :: !EqualsIgnoreCase(text, Name(s))
    ensures ChangeStatus(o, text) == Err(InvalidStatus(text))
    ensures ExceptionOf(ChangeStatus(o, text).error) == IllegalArgument
  {
    if Parse(text).Some? {
      ParseIsCaseInsensitiveMatch(text, Parse(text).value);
    }
  }

  /** A status change that succeeds moves an order open to change to the
      status the label names up to case, and changes nothing else: id, user,
      date, total and lines stay. */
  lemma OnlyStatusChanges(o: Order, text: string)
    requires ChangeStatus(o, text).Ok?
    ensures var n := ChangeStatus(o, text).value;
      && !IsTerminal(o.status)
      && EqualsIgnoreCase(text, Name(n.status))
      && n.id == o.id && n.userId == o.userId && n.orderDate == o.orderDate
      && n.totalAmount == o.totalAmount && n.items == o.items
  {
    ParseIsCaseInsensitiveMatch(text, ChangeStatus(o, text).value.status);
  }

  /** From an order open to change every status can be reached, a terminal one
      included, and going back to PENDING is allowed too. */
  lemma AnyStatusReachable(o: Order, s: OrderStatus)
    requires !IsTerminal(o.status)
    ensures ChangeStatus(o, Name(s)) == Ok(o.(status := s))
  {
    ParseName(s);
  }

  /** A deletion removes the deleted id from the table, and every other order
      is still found by its own id, unchanged. */
  lemma RemoveAtKeepsOthers(s: seq<Order>, k: nat, j: nat)
    requires k < |s| && IdsDistinct(s) && j < |s| && j != k
    ensures IndexOfOrder(RemoveAt(s, k), s[k].id).None?
    ensures var m := IndexOfOrder(RemoveAt(s, k), s[j].id);
      m.Some? && RemoveAt(s, k)[m.value] == s[j]
  {
    var r := RemoveAt(s, k);
    assert s[j] in r;
  }
}
