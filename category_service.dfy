/** The name and conflict checks of the category service. A name is blank
    when JavaScript's `String.prototype.trim` leaves nothing of it; the name
    itself is stored as given, untrimmed. */
module CategoryService {
  import opened Tables
  import opened Records
  import CategoryRepository

  /** The characters `trim` removes: the white-space and line-terminator
      code points of ECMAScript (tab, line tabulation, form feed, space,
      no-break space, the byte-order mark, the space separators of Unicode,
      line feed, carriage return, and the line and paragraph separators). */
  predicate IsJsWhitespace(c: char) {
    || c == '\U{0009}' || c == '\U{000A}' || c == '\U{000B}' || c == '\U{000C}' || c == '\U{000D}'
    || c == '\U{0020}' || c == '\U{00A0}' || c == '\U{1680}'
    || ('\U{2000}' <= c <= '\U{200A}')
    || c == '\U{2028}' || c == '\U{2029}' || c == '\U{202F}' || c == '\U{205F}' || c == '\U{3000}'
    || c == '\U{FEFF}'
  }

  /** s without its leading white space. */
  function TrimStart(s: string): (r: string)
    ensures r == [] || !IsJsWhitespace(r[0])
    ensures exists k :: 0 <= k <= |s| && r == s[k..] && forall i :: 0 <= i < k ==> IsJsWhitespace(s[i])
  {
    if s != [] && IsJsWhitespace(s[0]) then
      var r := TrimStart(s[1..]);
      var k :| 0 <= k <= |s[1..]| && r == s[1..][k..] && forall i :: 0 <= i < k ==> IsJsWhitespace(s[1..][i]);
      assert r == s[k + 1..];
      r
    else
      assert s == s[0..];
      s
  }

  /** s without its trailing white space. */
  function TrimEnd(s: string): (r: string)
    ensures r == [] || !IsJsWhitespace(r[|r| - 1])
    ensures exists k :: 0 <= k <= |s| && r == s[..k] && forall i :: k <= i < |s| ==> IsJsWhitespace(s[i])
  {
    if s != [] && IsJsWhitespace(s[|s| - 1]) then
      var r := TrimEnd(s[..|s| - 1]);
      var k :| 0 <= k <= |s| - 1 && r == s[..|s| - 1][..k] && forall i :: k <= i < |s| - 1 ==> IsJsWhitespace(s[i]);
      assert r == s[..k];
      r
    else
      assert s == s[..|s|];
      s
  }

  function Trim(s: string): string {
    TrimEnd(TrimStart(s))
  }

  /** `!name || name.trim() === ""`: the empty string is already blank. */
  predicate Blank(name: string) {
    name == "" || Trim(name) == ""
  }

  /** A name is blank exactly when every character of it is white space. */
  lemma BlankIsAllWhitespace(name: string)
    ensures Blank(name) <==> forall i :: 0 <= i < |name| ==> IsJsWhitespace(name[i])
  {
    var t := TrimStart(name);
    var k :| 0 <= k <= |name| && t == name[k..] && forall i :: 0 <= i < k ==> IsJsWhitespace(name[i]);
    if Trim(name) == "" {
      assert |t| == 0;
    }
  }

  /** Create: a blank name is a BadRequest before any lookup; a category of
      the same user with exactly that name is a Conflict. */
  function CreateCheck(categories: seq<Category>, userId: Id, name: string): (r: Outcome)
    ensures r == Failed(BadRequest) <==> Blank(name)
    ensures r == Failed(Conflict) <==>
      !Blank(name) && exists c :: c in categories && c.name == name && c.userId == userId
    ensures r == Done || r == Failed(BadRequest) || r == Failed(Conflict)
  {
    if Blank(name) then Failed(BadRequest)
    else if CategoryRepository.FindByName(categories, name, userId).Some? then Failed(Conflict)
    else Done
  }

  /** The category Create inserts, with the name as given. */
  function NewCategory(id: Id, userId: Id, name: string, color: Option<string>): (c: Category)
    ensures c.id == id && c.userId == userId && c.name == name && c.color == color
  {
    Category(id, userId, name, color)
  }

  /** Edit: the same blank-name rule; a same-named category of the user
      conflicts only when it is not the edited one. */
  function EditCheck(categories: seq<Category>, id: Id, userId: Id, name: string): (r: Outcome)
    ensures r == Failed(BadRequest) <==> Blank(name)
    ensures r == Failed(Conflict) ==>
      !Blank(name) && exists c :: c in categories && c.name == name && c.userId == userId && c.id != id
    ensures r == Done ==>
      && !Blank(name)
      && (CategoryRepository.FindByName(categories, name, userId).None? ||
          CategoryRepository.FindByName(categories, name, userId).value.id == id)
    ensures r == Done || r == Failed(BadRequest) || r == Failed(Conflict)
  {
    if Blank(name) then Failed(BadRequest)
    else
      var found := CategoryRepository.FindByName(categories, name, userId);
      if found.Some? && found.value.id != id then Failed(Conflict)
      else Done
  }

  /** Renaming a category to its own name, or to a name no other category
      of the user holds, is accepted. */
  lemma RenameToFreeOrOwnNameAccepted(categories: seq<Category>, id: Id, userId: Id, name: string)
    requires !Blank(name)
    requires forall c :: c in categories && c.name == name && c.userId == userId ==> c.id == id
    ensures EditCheck(categories, id, userId, name) == Done
  {
  }

  /** The rename the edit check lets through keeps names unique per user. */
  lemma AcceptedRenameKeepsNamesUnique(categories: seq<Category>, id: Id, userId: Id, name: string)
    requires Pairwise(categories, CategoryKeysAscend)
    requires Pairwise(categories, CategoryNamesDiffer)
    requires EditCheck(categories, id, userId, name) == Done
    ensures Pairwise(CategoryRepository.Edit(categories, id, userId, name), CategoryNamesDiffer)
  {
    CategoryRepository.RenameKeepsNamesUnique(categories, id, userId, name);
  }
}
