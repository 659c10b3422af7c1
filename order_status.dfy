/** The order status enumeration and the parse of a client-supplied status
    text (`OrderStatus.valueOf(text.toUpperCase())`). */
module OrderStatuses {
  import opened Common

  /** The order lifecycle. PENDING is the initial status; DELIVERED and
      CANCELLED are terminal. */
  datatype OrderStatus = PENDING | CONFIRMED | SHIPPED | DELIVERED | CANCELLED

  /** The name of the enum constant, which `valueOf` matches exactly. */
  function Name(s: OrderStatus): string
  {
    match s
    case PENDING => "PENDING"
    case CONFIRMED => "CONFIRMED"
    case SHIPPED => "SHIPPED"
    case DELIVERED => "DELIVERED"
    case CANCELLED => "CANCELLED"
  }

  /** Orders in these statuses may neither change status nor be deleted. */
  predicate IsTerminal(s: OrderStatus)
  {
    s == DELIVERED || s == CANCELLED
  }

  /** `Character.toUpperCase` restricted to ASCII letters. */
  function UpperChar(c: char): char
  {
    if 'a' <= c <= 'z' then (c as int - 32) as char else c
  }

  /** `String.toUpperCase`, character by character. */
  function ToUpper(s: string): string
  {
    seq(|s|, i requires 0 <= i < |s| => UpperChar(s[i]))
  }

  /** `Enum.valueOf`: exact match against a constant's name; `None` stands for
      the IllegalArgumentException it throws. */
  function ValueOf(name: string): (r: Option<OrderStatus>)
    ensures r.Some? ==> Name(r.value) == name
    ensures r.None? ==> forall s :: Name(s) != name
  {
    if name == "PENDING" then Some(PENDING)
    else if name == "CONFIRMED" then Some(CONFIRMED)
    else if name == "SHIPPED" then Some(SHIPPED)
    else if name == "DELIVERED" then Some(DELIVERED)
    else if name == "CANCELLED" then Some(CANCELLED)
    else None
  }

  /** The text parse used by the status filter and the status update. */
  function Parse(text: string): Option<OrderStatus>
  {
    ValueOf(ToUpper(text))
  }

  /** Two strings are equal up to ASCII case. */
  predicate EqualsIgnoreCase(a: string, b: string)
  {
    |a| == |b| && forall i :: 0 <= i < |a| ==> UpperChar(a[i]) == UpperChar(b[i])
  }

  /** Every constant's name is already upper case. */
  lemma NameIsUpper(s: OrderStatus)
    ensures ToUpper(Name(s)) == Name(s)
  {
    var n := Name(s);
    forall i | 0 <= i < |n| ensures ToUpper(n)[i] == n[i] {
      assert 'A' <= n[i] <= 'Z';
    }
  }

  /** The parse accepts a text exactly when it spells a constant's name in
      any mix of cases, and then yields that constant. */
  lemma ParseIsCaseInsensitiveMatch(text: string, s: OrderStatus)
    ensures Parse(text) == Some(s) <==> EqualsIgnoreCase(text, Name(s))
  {
    NameIsUpper(s);
    var n := Name(s);
    if EqualsIgnoreCase(text, n) {
      forall i | 0 <= i < |text| ensures ToUpper(text)[i] == n[i] {
        assert UpperChar(n[i]) == ToUpper(n)[i];
      }
      assert ToUpper(text) == n;
    }
    if Parse(text) == Some(s) {
      assert ToUpper(text) == n;
      forall i | 0 <= i < |text| ensures UpperChar(text[i]) == UpperChar(n[i]) {
        assert UpperChar(n[i]) == ToUpper(n)[i];
      }
    }
  }

  /** Labels that agree up to case parse to the same status. */
  lemma {:induction false} ParseIgnoresCase(a: string, b: string)
    requires EqualsIgnoreCase(a, b)
    ensures Parse(a) == Parse(b)
  {
    assert ToUpper(a) == ToUpper(b) by {
      forall i | 0 <= i < |a| ensures ToUpper(a)[i] == ToUpper(b)[i] { }
    }
  }

  /** Every constant can be named: its own name parses back to it, so the
      status update can reach every status. */
  lemma ParseName(s: OrderStatus)
    ensures Parse(Name(s)) == Some(s)
  {
    NameIsUpper(s);
  }

  /** Examples: lower- and mixed-case names are accepted, other words are not. */
  lemma ParseExamples()
    ensures Parse("delivered") == Some(DELIVERED)
    ensures Parse("Shipped") == Some(SHIPPED)
    ensures Parse("pending ") == None
    ensures Parse("") == None
  {
    assert ToUpper("delivered") == "DELIVERED";
    assert ToUpper("Shipped") == "SHIPPED";
    assert ToUpper("pending ") == "PENDING ";
  }
}
