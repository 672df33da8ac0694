/**
 * The sidebar: the signed-in address, shortened, and a fixed list of demo
 * contacts, each row showing an unread badge when there is something
 * unread and handing the contact's address to `onSelect` when clicked.
 */
module Sidebar {
  import opened Wrappers
  import opened JsString

  datatype Contact = Contact(id: string, name: string, last: string, unread: int)

  /** The two demo contacts, in display order. */
  const Contacts: seq<Contact> := [
    Contact("0x70997970C51812dc3A010C7d01b50e0d17dc79C8", "Alice (Demo)", "Hey \U{2014} how are you?", 2),
    Contact("0x3C44CdDdB6a900fa2b585dd299e03d12FA4293BC", "Bob (Demo)", "Sent a photo", 0)
  ]

  /**
   * `short(addr)`: "" for the empty address; otherwise the first six
   * characters, "..." and the last four, each cut by `substring`, which
   * clamps, so a short address shows whole (and twice when under ten).
   */
  function Short(addr: string): (r: string)
    ensures addr == "" ==> r == ""
    ensures addr != "" ==>
      r == addr[..if |addr| < 6 then |addr| else 6] + "..." + addr[if |addr| < 4 then 0 else |addr| - 4..]
  {
    if addr == "" then ""
    else
      assert addr[..|addr|] == addr;
      Substring(addr, 0, 6) + "..." + Substring(addr, |addr| - 4, |addr|)
  }

  /** An address of ten characters or more shows as 13: six, "...", four. */
  lemma ShortOfLongAddress(addr: string)
    requires |addr| >= 10
    ensures |Short(addr)| == 13
    ensures Short(addr)[..6] == addr[..6]
    ensures Short(addr)[6..9] == "..."
    ensures Short(addr)[9..] == addr[|addr| - 4..]
  {
    var r := Short(addr);
    assert r == addr[..6] + "..." + addr[|addr| - 4..];
    assert r[..6] == addr[..6];
    assert r[6..9] == "...";
    assert r[9..] == addr[|addr| - 4..];
  }

  /** An address under four characters appears in full on both sides of "...". */
  lemma ShortOfTinyAddress(addr: string)
    requires 0 < |addr| < 4
    ensures Short(addr) == addr + "..." + addr
  {
    assert addr[..|addr|] == addr;
    assert addr[0..] == addr;
  }

  /** A contact row as drawn: the badge carries the unread count, shown only when positive. */
  datatype Row = Row(name: string, last: string, badge: Option<int>, selects: string)

  function RowOf(c: Contact): (row: Row)
    ensures row.badge.Some? <==> c.unread > 0
    ensures row.badge.Some? ==> row.badge.value == c.unread
    ensures row.selects == c.id && row.name == c.name && row.last == c.last
  {
    Row(c.name, c.last, if c.unread > 0 then Some(c.unread) else None, c.id)
  }

  /** `contacts.map(...)`: one row per contact, in the same order. */
  function Rows(cs: seq<Contact>): (rows: seq<Row>)
    ensures |rows| == |cs|
    ensures forall i :: 0 <= i < |cs| ==> rows[i] == RowOf(cs[i])
  {
    if cs == [] then [] else [RowOf(cs[0])] + Rows(cs[1..])
  }

  /** Clicking row `i` of the contact list calls `onSelect` with that contact's address. */
  function Select(cs: seq<Contact>, i: nat): (id: string)
    requires i < |cs|
    ensures id == cs[i].id
  {
    Rows(cs)[i].selects
  }

  /** Clicking a demo row selects that contact's address; only Alice's row has a badge. */
  lemma DemoSidebar()
    ensures Select(Contacts, 0) == Contacts[0].id
    ensures Select(Contacts, 1) == Contacts[1].id
    ensures Rows(Contacts)[0].badge == Some(2)
    ensures Rows(Contacts)[1].badge == None
  {
    var rows := Rows(Contacts);
    assert rows[0] == RowOf(Contacts[0]);
    assert rows[1] == RowOf(Contacts[1]);
  }

  /** Whatever lies between the first six and the last four characters is dropped. */
  lemma ShortDropsMiddle(head: string, middle: string, tail: string)
    requires |head| == 6 && |tail| == 4
    ensures Short(head + middle + tail) == head + "..." + tail
  {
    var addr := head + middle + tail;
    assert addr[..6] == head;
    assert addr[|addr| - 4..] == tail;
  }

  lemma AliceIdParts()
    ensures Contacts[0].id == "0x7099" + "7970C51812dc3A010C7d01b50e0d17dc" + "79C8"
  {
  }

  /** Alice's address is shown as "0x7099...79C8". */
  lemma AliceShortened()
    ensures Short(Contacts[0].id) == "0x7099...79C8"
  {
    AliceIdParts();
    ShortDropsMiddle("0x7099", "7970C51812dc3A010C7d01b50e0d17dc", "79C8");
  }
}
