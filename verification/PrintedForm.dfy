/** The two printed forms, character by character. */
module PrintedForm {

  import opened JsonTree
  import opened Prelude

  /** Unformatted: no blank anywhere. */
  lemma Plain(items: Items, members: Members, v: Json, name: string, depth: nat)
    ensures Text(Array(items), depth, false) == "[" + ItemsText(items, depth + 1, false) + "]"
    ensures ItemsText(Items.Item(v, items), depth, false)
         == Text(v, depth, false) + (if items.Item? then "," else "") + ItemsText(items, depth, false)
    ensures Text(Object(members), depth, false) == "{" + MembersText(members, depth + 1, false) + "}"
    ensures MembersText(Member(name, v, members), depth, false)
         == Quote(name) + ":" + Text(v, depth, false) + (if members.Member? then "," else "")
            + MembersText(members, depth, false)
  {
    PlainItems(items, v, depth);
    PlainMember(members, v, name, depth);
    PlainObject(members, depth);
  }

  lemma PlainItems(items: Items, v: Json, depth: nat)
    ensures ItemsText(Items.Item(v, items), depth, false)
         == Text(v, depth, false) + (if items.Item? then "," else "") + ItemsText(items, depth, false)
  {
    hide Text;
    if items.Item? {
      assert ItemsText(Items.Item(v, items), depth, false)
          == Text(v, depth, false) + "," + ItemsText(items, depth, false);
    }
  }

  lemma PlainMember(members: Members, v: Json, name: string, depth: nat)
    ensures MembersText(Member(name, v, members), depth, false)
         == Quote(name) + ":" + Text(v, depth, false) + (if members.Member? then "," else "")
            + MembersText(members, depth, false)
  {
    hide Text, Quote;
    assert "" + Quote(name) == Quote(name);
    if members.Member? { assert "," + "" == ","; }
  }

  lemma PlainObject(members: Members, depth: nat)
    ensures Text(Object(members), depth, false) == "{" + MembersText(members, depth + 1, false) + "}"
  {
    hide Head, Ending;
    if members.Member? {
      var body := MembersText(members, depth + 1, false);
      assert "{" + body + "" + "}" == "{" + body + "}";
    }
  }

  /** Formatted: the items on one line with spaces between them, each member on a line of its own behind a tab for each
      level, a tab behind the colon, the closing brace on a line of its own; in an empty object it stands one tab
      further left than the level asks for. */
  lemma Formatted(items: Items, members: Members, v: Json, name: string, depth: nat)
    ensures Text(Array(items), depth, true) == "[" + ItemsText(items, depth + 1, true) + "]"
    ensures ItemsText(Items.Item(v, items), depth, true)
         == Text(v, depth, true) + (if items.Item? then ", " else "") + ItemsText(items, depth, true)
    ensures Text(Object(NoMember), depth, true) == "{\n" + Repeat('\t', if depth == 0 then 0 else depth - 1) + "}"
    ensures members.Member? ==>
              Text(Object(members), depth, true)
              == "{\n" + MembersText(members, depth + 1, true) + Repeat('\t', depth) + "}"
    ensures MembersText(Member(name, v, members), depth, true)
         == Repeat('\t', depth) + Quote(name) + ":\t" + Text(v, depth, true) + (if members.Member? then ",\n" else "\n")
            + MembersText(members, depth, true)
  {
    FormattedItems(items, v, depth);
    FormattedMember(members, v, name, depth);
    FormattedEmpty(depth);
    if members.Member? { FormattedObject(members, depth); }
  }

  lemma TabsAre(n: nat)
    ensures Tabs(n) == Repeat('\t', n)
  {}

  lemma FormattedItems(items: Items, v: Json, depth: nat)
    ensures ItemsText(Items.Item(v, items), depth, true)
         == Text(v, depth, true) + (if items.Item? then ", " else "") + ItemsText(items, depth, true)
  {
    hide Text;
    if items.Item? {
      assert ItemsText(Items.Item(v, items), depth, true)
          == Text(v, depth, true) + ", " + ItemsText(items, depth, true);
    }
  }

  lemma FormattedMember(members: Members, v: Json, name: string, depth: nat)
    ensures MembersText(Member(name, v, members), depth, true)
         == Repeat('\t', depth) + Quote(name) + ":\t" + Text(v, depth, true) + (if members.Member? then ",\n" else "\n")
            + MembersText(members, depth, true)
  {
    hide Text, Quote, Tabs, Repeat;
    TabsAre(depth);
    assert "," + "\n" == ",\n" && "" + "\n" == "\n";
  }

  lemma FormattedEmpty(depth: nat)
    ensures Text(Object(NoMember), depth, true) == "{\n" + Repeat('\t', if depth == 0 then 0 else depth - 1) + "}"
  {}

  lemma FormattedObject(members: Members, depth: nat)
    requires members.Member?
    ensures Text(Object(members), depth, true)
         == "{\n" + MembersText(members, depth + 1, true) + Repeat('\t', depth) + "}"
  {
    hide Head, Ending, Tabs, MembersText;
    TabsAre(depth);
  }

  /** The three words and the empty chains. */
  lemma Words(depth: nat, fmt: bool)
    ensures Text(Null, depth, fmt) == "null" && Text(False, depth, fmt) == "false" && Text(True, depth, fmt) == "true"
    ensures ItemsText(NoItem, depth, fmt) == "" && MembersText(NoMember, depth, fmt) == ""
  {}
}
