/** The display lookups for a note's tag: CSS class, icon markup and label
    (`getTagClass`, `getTagIcon`, `getTagName`). */
module Tags {
  import opened Text

  const ClassTable: map<string, string> := map[
    "work" := "tag-work",
    "personal" := "tag-personal",
    "ideas" := "tag-ideas",
    "reminders" := "tag-reminders"]

  const IconTable: map<string, string> := map[
    "work" := "<i class=\"fas fa-briefcase\"></i>",
    "personal" := "<i class=\"fas fa-user\"></i>",
    "ideas" := "<i class=\"fas fa-lightbulb\"></i>",
    "reminders" := "<i class=\"fas fa-bell\"></i>"]

  const NameTable: map<string, string> := map[
    "work" := "Work",
    "personal" := "Personal",
    "ideas" := "Ideas",
    "reminders" := "Reminders"]

  predicate IsKnownTag(tag: string) {
    tag == "work" || tag == "personal" || tag == "ideas" || tag == "reminders"
  }

  /** JavaScript's `table[key] || fallback`: a missing key (undefined) and an
      empty entry are both falsy and give the fallback. */
  function LookupOr(table: map<string, string>, key: string, fallback: string): (r: string)
    ensures key !in table ==> r == fallback
    ensures r == fallback || (key in table && r == table[key] && r != "")
    ensures key in table && table[key] != "" ==> r == table[key]
  {
    if key in table && table[key] != "" then table[key] else fallback
  }

  /** The three tables are keyed by the same four tags. */
  lemma TablesCoverKnownTags(tag: string)
    ensures tag in ClassTable <==> IsKnownTag(tag)
    ensures tag in IconTable <==> IsKnownTag(tag)
    ensures tag in NameTable <==> IsKnownTag(tag)
  {
  }

  /** `getTagClass`: "tag-" followed by the tag for a known tag, otherwise "". */
  function TagClass(tag: string): (r: string)
    ensures IsKnownTag(tag) ==> r == "tag-" + tag
    ensures !IsKnownTag(tag) ==> r == ""
  {
    LookupOr(ClassTable, tag, "")
  }

  /** `getTagIcon`: a Font Awesome `<i>` element for a known tag, otherwise "". */
  function TagIcon(tag: string): (r: string)
    ensures r != "" <==> IsKnownTag(tag)
    ensures IsKnownTag(tag) ==> exists glyph :: r == "<i class=\"fas fa-" + glyph + "\"></i>"
  {
    var r := LookupOr(IconTable, tag, "");
    assert tag == "work" ==> r == "<i class=\"fas fa-" + "briefcase" + "\"></i>";
    assert tag == "personal" ==> r == "<i class=\"fas fa-" + "user" + "\"></i>";
    assert tag == "ideas" ==> r == "<i class=\"fas fa-" + "lightbulb" + "\"></i>";
    assert tag == "reminders" ==> r == "<i class=\"fas fa-" + "bell" + "\"></i>";
    r
  }

  /** `getTagName`: the capitalised tag for a known tag, the raw tag otherwise. */
  function TagName(tag: string): (r: string)
    ensures IsKnownTag(tag) ==> r == Capitalize(tag)
    ensures !IsKnownTag(tag) ==> r == tag
  {
    LookupOr(NameTable, tag, tag)
  }

  /** Distinct known tags get distinct classes, icons and labels. */
  lemma TagLookupsDistinct(t1: string, t2: string)
    requires IsKnownTag(t1) && IsKnownTag(t2) && t1 != t2
    ensures TagClass(t1) != TagClass(t2)
    ensures TagIcon(t1) != TagIcon(t2)
    ensures TagName(t1) != TagName(t2)
  {
  }
}
