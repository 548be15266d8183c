/** The text that a tree digest hashes (internal/artifact/digest.go), character by character. */
module TreeText {
  import opened ArtifactIdentity
  import opened Canonical
  import opened Integers
  import opened Json
  import opened KeyOrder
  import opened LexOrder
  import opened TreeSpec

  function MemberText(name: string, text: string): string {
    "\"" + name + "\"" + (":" + text)
  }

  function EntryText(e: TreeEntry): string {
    "{" + (MemberText("path", Quoted(e.path)) + ("," + MemberText("sha256", Quoted(e.sha256))) +
           ("," + MemberText("size", FormatInt(e.size as int)))) + "}"
  }

  /** The entries' texts in order, with commas between them. */
  function EntriesText(entries: seq<TreeEntry>): string {
    if entries == [] then ""
    else
      var n := |entries| - 1;
      EntriesText(entries[..n]) + (if n > 0 then "," else "") + EntryText(entries[n])
  }

  lemma FirstUnit(s: string)
    requires s != "" && s[0] as int < 0x1_0000
    ensures Utf16(s) == [s[0] as int] + Utf16(s[1..]) && Utf16(s)[1..] == Utf16(s[1..])
  {
  }

  /** Apart from equal first characters, the smaller first character decides. */
  lemma {:induction false} FirstCharDecides(a: string, b: string)
    requires a != "" && b != "" && a[0] as int < 0x1_0000 && b[0] as int < 0x1_0000
    ensures a[0] < b[0] ==> KeyLess(a, b)
    ensures a[0] == b[0] ==> (KeyLess(a, b) <==> KeyLess(a[1..], b[1..]))
  {
    FirstUnit(a);
    FirstUnit(b);
  }

  lemma {:induction false} EntryKeys()
    ensures Sorted({"path", "sha256", "size"}) == ["path", "sha256", "size"]
  {
    hide KeyLess;
    FirstCharDecides("path", "sha256");
    FirstCharDecides("path", "size");
    FirstCharDecides("sha256", "size");
    assert "sha256"[1..] == "ha256" && "size"[1..] == "ize";
    FirstCharDecides("ha256", "ize");
    var keys := ["path", "sha256", "size"];
    assert Ascending(keys);
    forall k ensures k in KeySet(keys) <==> k in {"path", "sha256", "size"} {
      assert keys[0] in keys && keys[1] in keys && keys[2] in keys;
    }
    assert KeySet(keys) == {"path", "sha256", "size"};
    AscendingUnique(keys, Sorted({"path", "sha256", "size"}));
  }

  lemma PlainChar(c: char)
    requires 0x20 <= c as int && c != '"' && c != '\\'
    ensures Escape(c) == [c]
  {
  }

  predicate Plain(s: string) {
    forall c | c in s :: 0x20 <= c as int && c != '"' && c != '\\'
  }

  lemma PlainKeys()
    ensures Plain("path") && Plain("sha256") && Plain("size")
  {
  }

  lemma {:induction false} PlainText(s: string)
    requires Plain(s)
    ensures EscapeAll(s) == s
  {
    hide Escape;
    if s != "" {
      assert s[0] in s;
      PlainChar(s[0]);
      assert forall c | c in s[1..] :: c in s;
      PlainText(s[1..]);
      assert s == [s[0]] + s[1..];
    }
  }

  lemma PieceText(v: Value, keys: seq<string>, i: nat)
    requires v.Obj? && i < |keys| && keys[i] in v.members && Printable(v.members[keys[i]])
    requires Plain(keys[i])
    ensures MemberPiece(v, keys, i) ==
            (if i > 0 then "," else "") + MemberText(keys[i], Print(v.members[keys[i]]))
  {
    hide EscapeAll;
    PlainText(keys[i]);
  }

  lemma ThreeMembers(v: Value, keys: seq<string>)
    requires v.Obj? && |keys| == 3 && forall i | 0 <= i < 3 :: keys[i] in v.members && Printable(v.members[keys[i]])
    ensures MembersText(v, keys, 3) == MemberPiece(v, keys, 0) + MemberPiece(v, keys, 1) + MemberPiece(v, keys, 2)
  {
    hide Printable, MemberPiece;
    assert MembersText(v, keys, 0) == "";
    assert MembersText(v, keys, 1) == "" + MemberPiece(v, keys, 0) == MemberPiece(v, keys, 0);
  }

  lemma EntryMembers(e: TreeEntry)
    requires Printable(EntryValue(e))
    ensures var v := EntryValue(e);
            && v.Obj? && v.members.Keys == {"path", "sha256", "size"}
            && (forall k | k in v.members :: Printable(v.members[k]))
            && Print(v.members["path"]) == Quoted(e.path) && Print(v.members["sha256"]) == Quoted(e.sha256)
            && Print(v.members["size"]) == FormatInt(e.size as int)
  {
    hide Quoted, FormatInt, AppendInteger;
  }

  lemma ObjectPrints(v: Value, keys: seq<string>)
    requires v.Obj? && Printable(v) && keys == Sorted(v.members.Keys)
    ensures (forall k | k in keys :: k in v.members) &&
            Print(v) == "{" + MembersText(v, keys, |keys|) + "}"
  {
    hide Sorted, MembersText, AppendInteger;
    assert forall k :: k in keys <==> k in KeySet(keys);
  }

  lemma {:induction false} EntryPrints(e: TreeEntry)
    requires Printable(EntryValue(e))
    ensures Print(EntryValue(e)) == EntryText(e)
  {
    hide Plain, EntryValue, Print, Printable, Quoted, FormatInt, Sorted, MemberText, MembersText, MemberPiece,
      EscapeAll;
    var v, keys := EntryValue(e), ["path", "sha256", "size"];
    EntryKeys();
    PlainKeys();
    EntryMembers(e);
    ObjectPrints(v, keys);
    ThreeMembers(v, keys);
    PieceText(v, keys, 0);
    PieceText(v, keys, 1);
    PieceText(v, keys, 2);
    NoComma(MemberText("path", Quoted(e.path)));
  }

  lemma NoComma(text: string)
    ensures "" + text == text
  {
  }

  lemma {:induction false} ItemsPrint(entries: seq<TreeEntry>, n: nat)
    requires n <= |entries| && Printable(TreeValue(entries))
    ensures ItemsText(TreeValue(entries), n) == EntriesText(entries[..n])
  {
    hide EntryText, EntryValue;
    if n > 0 {
      ItemsPrint(entries, n - 1);
      EntryPrints(entries[n - 1]);
      assert entries[..n][..n - 1] == entries[..n - 1];
    }
  }

  /** One object for each entry, with path, hash and size in this order, and nothing else. */
  lemma {:induction false} TreePrints(entries: seq<TreeEntry>)
    requires Printable(TreeValue(entries))
    ensures Print(TreeValue(entries)) == "[" + EntriesText(entries) + "]"
  {
    ItemsPrint(entries, |entries|);
    assert entries[..|entries|] == entries;
  }
}
