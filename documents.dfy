/** Parent documents as the store holds them, and their normalisation into
    `Parent`/`Child` records (firestoreService.ts, normalizeChild,
    normalizeParent). A stored child may lack its spelling history and a
    stored parent may lack its child list; both read as empty. */
module Documents {
  import opened Results
  import opened Types

  datatype ChildDoc = ChildDoc(
    id: string,
    name: string,
    gradeLevel: string,
    avatar: string,
    spellingProgress: Option<seq<SpellingResult>>)

  datatype ParentDoc = ParentDoc(username: string, email: string, children: Option<seq<ChildDoc>>)

  function NormalizeChild(d: ChildDoc): Child
  {
    Child(d.id, d.name, d.gradeLevel, d.avatar,
          match d.spellingProgress case Some(h) => h case None => [])
  }

  function NormalizeChildren(ds: seq<ChildDoc>): (cs: seq<Child>)
    ensures |cs| == |ds|
    ensures forall i :: 0 <= i < |ds| ==> cs[i] == NormalizeChild(ds[i])
    decreases |ds|
  {
    if ds == [] then [] else [NormalizeChild(ds[0])] + NormalizeChildren(ds[1..])
  }

  function NormalizeParent(id: string, d: ParentDoc): Parent
  {
    Parent(id, d.username, d.email,
           match d.children case Some(cs) => NormalizeChildren(cs) case None => [])
  }

  /** The document written back for a child record. */
  function ChildDocOf(c: Child): ChildDoc
  {
    ChildDoc(c.id, c.name, c.gradeLevel, c.avatar, Some(c.spellingProgress))
  }

  function ChildDocsOf(cs: seq<Child>): (ds: seq<ChildDoc>)
    decreases |cs|
  {
    if cs == [] then [] else [ChildDocOf(cs[0])] + ChildDocsOf(cs[1..])
  }

  /** Writing a child list and reading it back gives the same list. */
  lemma {:induction false} NormalizeChildDocsOf(cs: seq<Child>)
    ensures NormalizeChildren(ChildDocsOf(cs)) == cs
    decreases |cs|
  {
    if cs != [] {
      NormalizeChildDocsOf(cs[1..]);
      assert cs == [cs[0]] + cs[1..];
    }
  }

  /** Replacing a parent document's child list with `cs` (and nothing else)
      reads back as the same parent with children `cs`. */
  lemma ReadAfterWriteChildren(id: string, d: ParentDoc, cs: seq<Child>)
    ensures NormalizeParent(id, d.(children := Some(ChildDocsOf(cs)))) == Parent(id, d.username, d.email, cs)
  {
    NormalizeChildDocsOf(cs);
  }

  /** Normalisation is idempotent: writing back what was read changes
      nothing that is read. */
  lemma NormalizeParentIdempotent(id: string, d: ParentDoc)
    ensures var p := NormalizeParent(id, d);
      NormalizeParent(id, ParentDoc(p.username, p.email, Some(ChildDocsOf(p.children)))) == p
  {
    NormalizeChildDocsOf(NormalizeParent(id, d).children);
  }

  /** Index of the first child with the given id (Array.findIndex). */
  function FindChild(cs: seq<Child>, childId: string): (r: Option<nat>)
    ensures r.None? <==> forall i :: 0 <= i < |cs| ==> cs[i].id != childId
    ensures r.Some? ==> r.value < |cs| && cs[r.value].id == childId
    ensures r.Some? ==> forall i :: 0 <= i < r.value ==> cs[i].id != childId
    decreases |cs|
  {
    if cs == [] then None
    else if cs[0].id == childId then Some(0)
    else match FindChild(cs[1..], childId)
      case None => None
      case Some(i) => Some(i + 1)
  }

  /** The child list after `result` is put in front of child `i`'s history. */
  function WithResultPrepended(cs: seq<Child>, i: nat, result: SpellingResult): (r: seq<Child>)
    requires i < |cs|
    ensures |r| == |cs|
    ensures r[i].spellingProgress == [result] + cs[i].spellingProgress
    ensures r[i].(spellingProgress := cs[i].spellingProgress) == cs[i]
    ensures forall j :: 0 <= j < |cs| && j != i ==> r[j] == cs[j]
  {
    cs[i := cs[i].(spellingProgress := [result] + cs[i].spellingProgress)]
  }
}
