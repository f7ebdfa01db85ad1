/** `CategoryService`: categories are stored under their id with a lower-case
    name, one name per user; every answer shows the name with its first
    letter in upper case. The id (`uuidv4()`) and the clock are parameters. */
module CategoryService {
  import opened Wrappers
  import opened Text
  import opened Model
  import opened Errors

  /** `capitalizeFirstLetter(str)`: the first character in upper case, the
      rest in lower case; the empty text is returned as it is. */
  function Capitalize(s: string): (r: string)
    ensures |r| == |s|
    ensures s != [] ==> r[0] == UpperChar(s[0])
    ensures forall i :: 1 <= i < |s| ==> r[i] == LowerChar(s[i])
  {
    if s == [] then s else [UpperChar(s[0])] + ToLower(s[1..])
  }

  predicate IsAscii(s: string) {
    forall i :: 0 <= i < |s| ==> s[i] < '\U{80}'
  }

  lemma UpperCharIdempotent(c: char)
    ensures UpperChar(UpperChar(c)) == UpperChar(c)
  {
  }

  lemma LowerCharIdempotent(c: char)
    ensures LowerChar(LowerChar(c)) == LowerChar(c)
  {
  }

  /** Formatting a formatted name changes nothing. */
  lemma CapitalizeIdempotent(s: string)
    ensures Capitalize(Capitalize(s)) == Capitalize(s)
  {
    var r := Capitalize(s);
    if s != [] {
      UpperCharIdempotent(s[0]);
      forall i | 1 <= i < |s|
        ensures Capitalize(r)[i] == r[i]
      {
        LowerCharIdempotent(s[i]);
      }
    }
  }

  /** On an ASCII name formatting changes case only: lower-casing the
      formatted name gives the lower-cased name back, so a stored
      (lower-case) name is recovered from the answer. */
  lemma CapitalizeChangesCaseOnly(s: string)
    ensures IsAscii(s) ==> ToLower(Capitalize(s)) == ToLower(s)
  {
    if IsAscii(s) {
      forall i | 0 <= i < |s|
        ensures ToLower(Capitalize(s))[i] == ToLower(s)[i]
      {
        LowerCharIdempotent(s[i]);
      }
    }
  }

  /** Outside ASCII the case mapping does not read back: dotless i becomes
      `I` in the answer, which lower-cases to `i`. */
  lemma CapitalizeDotlessI()
    ensures ToLower(Capitalize("\U{131}")) == "i" != ToLower("\U{131}")
  {
    assert Capitalize("\U{131}") == "I";
  }

  /** `formatCategoryForResponse(category)`. */
  function Format(c: Category): (r: Category)
    ensures r == c.(name := Capitalize(c.name))
    ensures IsAscii(c.name) ==> ToLower(r.name) == ToLower(c.name)
  {
    CapitalizeChangesCaseOnly(c.name);
    c.(name := Capitalize(c.name))
  }

  const DuplicateName := "A category with this name already exists"

  /** Every category sits under its own id with a lower-case name, and no
      user has two categories of the same name. */
  predicate ValidTable(table: map<string, Category>) {
    (forall id :: id in table ==> table[id].id == id && ToLower(table[id].name) == table[id].name)
    && (forall a, b ::
          (a in table && b in table && table[a].userId == table[b].userId && table[a].name == table[b].name) ==> a == b)
  }

  /** The user has a category with exactly this name. */
  predicate HasName(table: map<string, Category>, userId: string, name: string) {
    exists id :: id in table && table[id].userId == userId && table[id].name == name
  }

  /** Another category than `self` of the user carries the name. */
  predicate HasNameElsewhere(table: map<string, Category>, userId: string, name: string, self: string) {
    exists id :: id in table && id != self && table[id].userId == userId && table[id].name == name
  }

  /** Renaming a category to a lower-case name no other category of its
      owner carries keeps the table valid. */
  lemma RenameKeepsValid(table: map<string, Category>, id: string, name: string, writeTime: string)
    requires ValidTable(table) && id in table && ToLower(name) == name
    requires !HasNameElsewhere(table, table[id].userId, name, id)
    ensures ValidTable(table[id := table[id].(name := name, updatedAt := writeTime)])
  {
  }

  class CategoryStore {
    var categories: map<string, Category>

    predicate Valid()
      reads this
    {
      ValidTable(categories)
    }

    constructor()
      ensures categories == map[] && Valid()
    {
      categories := map[];
    }

    /** `findByName(userId, name)`: one of the user's categories with exactly
        this name (the first of the query's answer), or none. */
    method FindByName(userId: string, name: string) returns (r: Option<Category>)
      ensures r.None? <==> !HasName(categories, userId, name)
      ensures r.Some? ==> r.value in categories.Values
      ensures r.Some? ==> r.value.userId == userId && r.value.name == name
    {
      if HasName(categories, userId, name) {
        var id :| id in categories && categories[id].userId == userId && categories[id].name == name;
        r := Some(categories[id]);
      } else {
        r := None;
      }
    }

    /** `create(userId, name)` with the fresh id `id`: refused with Conflict
        when the user already has the lower-cased name, otherwise stored
        lower-case and answered formatted. */
    method Create(userId: string, name: string, id: string, now: string) returns (r: Result<Category, PlanlyError>)
      requires id !in categories
      modifies this
      ensures HasName(old(categories), userId, ToLower(name)) ==>
                r == Err(ConflictError(Some(DuplicateName))) && categories == old(categories)
      ensures !HasName(old(categories), userId, ToLower(name)) ==>
                categories == old(categories)[id := Category(id, userId, ToLower(name), now, now)]
                && r == Ok(Format(Category(id, userId, ToLower(name), now, now)))
      ensures old(Valid()) ==> Valid()
    {
      var existing := FindByName(userId, ToLower(name));
      if existing.Some? {
        return Err(ConflictError(Some(DuplicateName)));
      }
      var category := Category(id, userId, ToLower(name), now, now);
      ToLowerIdempotent(name);
      categories := categories[id := category];
      return Ok(Format(category));
    }

    /** `getAllCategories(userId)`: the user's categories, formatted, in no
        particular order. */
    function AllCategories(userId: string): (r: set<Category>)
      reads this
      ensures forall c :: c in categories.Values && c.userId == userId ==> Format(c) in r
      ensures forall f :: f in r ==> exists c :: c in categories.Values && c.userId == userId && f == Format(c)
    {
      set c | c in categories.Values && c.userId == userId :: Format(c)
    }

    /** The two checks of `getCategoryById`, `update` and `delete`: missing,
        then owned by someone else; both are NotFound. */
    function Owned(userId: string, id: string, missingMessage: string): (r: Result<Category, PlanlyError>)
      reads this
      ensures r.Ok? <==> id in categories && categories[id].userId == userId
      ensures r.Ok? ==> r.value == categories[id]
      ensures r.Err? ==> r.error.statusCode == 404 && r.error.errorType == "NOT_FOUND"
      ensures id !in categories ==> r == Err(NotFoundError(Some(missingMessage)))
    {
      if id !in categories then Err(NotFoundError(Some(missingMessage)))
      else if categories[id].userId != userId then
        Err(NotFoundError(Some("Category " + id + " could not be found for user " + userId)))
      else Ok(categories[id])
    }

    /** `getCategoryById(userId, id)`: the owned category, formatted. */
    function GetCategoryById(userId: string, id: string): (r: Result<Category, PlanlyError>)
      reads this
      ensures r.Ok? <==> id in categories && categories[id].userId == userId
      ensures r.Ok? ==> r.value == Format(categories[id])
      ensures r.Err? ==> r.error.statusCode == 404
    {
      var c := Owned(userId, id, "Category " + id + " could not be found");
      if c.Err? then Err(c.error) else Ok(Format(c.value))
    }

    /** `getCategoryByName(userId, name)`: looks the name up exactly as given,
        without lower-casing it, so a name with an upper-case letter is never
        found among the lower-case stored names. */
    method GetCategoryByName(userId: string, name: string) returns (r: Result<Category, PlanlyError>)
      ensures r.Ok? <==> HasName(categories, userId, name)
      ensures r.Ok? ==> exists id :: id in categories && categories[id].userId == userId
                                     && categories[id].name == name && r.value == Format(categories[id])
      ensures r.Err? ==> r.error == NotFoundError(Some("Category " + name + " could not be found"))
      ensures Valid() && ToLower(name) != name ==> r.Err?
    {
      var c := FindByName(userId, name);
      if c.None? {
        return Err(NotFoundError(Some("Category " + name + " could not be found")));
      }
      return Ok(Format(c.value));
    }

    /** `update(userId, id, newName)`. When the lower-cased names agree
        nothing is written and the stored category is answered unformatted;
        otherwise the name is refused with Conflict when another category of
        the user has it, or stored lower-case (stamped `writeTime` by the
        repository) and answered formatted. */
    method Update(userId: string, id: string, newName: string, writeTime: string) returns (r: Result<Category, PlanlyError>)
      requires Valid()
      modifies this
      ensures old(Owned(userId, id, "Category " + id + " could not be found")).Err? ==>
                r == old(Owned(userId, id, "Category " + id + " could not be found")) && categories == old(categories)
      ensures old(Owned(userId, id, "Category " + id + " could not be found")).Ok? ==>
                var old_ := old(categories)[id];
                if ToLower(old_.name) == ToLower(newName) then
                  r == Ok(old_) && categories == old(categories)
                else if HasNameElsewhere(old(categories), userId, ToLower(newName), id) then
                  r == Err(ConflictError(Some(DuplicateName))) && categories == old(categories)
                else
                  r == Ok(Format(old_.(name := ToLower(newName))))
                  && categories == old(categories)[id := old_.(name := ToLower(newName), updatedAt := writeTime)]
      ensures Valid()
    {
      var found := Owned(userId, id, "Category " + id + " could not be found");
      if found.Err? {
        return found;
      }
      var oldCategory := found.value;
      var lowerName := ToLower(newName);
      if ToLower(oldCategory.name) == lowerName {
        return Ok(oldCategory);
      }
      var existing := FindByName(userId, lowerName);
      if existing.Some? && existing.value.id != oldCategory.id {
        return Err(ConflictError(Some(DuplicateName)));
      }
      // the category itself never matches, since its name does not
      // lower-case to the new one, so any match was refused above
      ToLowerIdempotent(newName);
      assert existing.None?;
      RenameKeepsValid(categories, id, lowerName, writeTime);
      var updated := oldCategory.(name := lowerName);
      categories := categories[id := updated.(updatedAt := writeTime)];
      r := Ok(Format(updated));
    }

    /** `delete(userId, id)`: removes the category only when both checks
        pass. */
    method Delete(userId: string, id: string) returns (r: Result<(), PlanlyError>)
      modifies this
      ensures r.Ok? <==> id in old(categories) && old(categories)[id].userId == userId
      ensures r.Ok? ==> categories == old(categories) - {id}
      ensures r.Err? ==> categories == old(categories) && r.error.statusCode == 404
      ensures id !in old(categories) ==> r == Err(NotFoundError(Some("Category not found")))
      ensures old(Valid()) ==> Valid()
    {
      var category := Owned(userId, id, "Category not found");
      if category.Err? {
        return Err(category.error);
      }
      categories := categories - {id};
      return Ok(());
    }
  }
}
