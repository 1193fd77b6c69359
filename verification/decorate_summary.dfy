/** The DECORATE summary of a project: the sorted list of every doomednum
    found in the include trees of the root DECORATE files, then one comment
    line per actor, walking each tree in pre-order; a header goes in front
    when anything was written, and nothing is written otherwise. */
module DecorateSummary {
  import opened Common
  import opened Text
  import opened DecorateContext
  import opened Buffers

  /** `_fileHeader`: a fixed block of comment lines whose wording the model
      does not fix. */
  const Header: string

  const DoomedNumsTitle: string := "// This is a full list of all known Doomednums."

  // ---- Doomednums ----

  /** An actor's doomednum, when it has one. */
  function DoomedNumOf(a: DecorateActor): seq<int> {
    match a.doomednum
    case None => []
    case Some(n) => [n]
  }

  function ActorsOf(f: DecorateFile): seq<DecorateActor> {
    match f.actors
    case None => []
    case Some(actors) => actors
  }

  /** The doomednums of a file's own actors, in actor order, nulls skipped. */
  function OwnDoomedNums(f: DecorateFile): seq<int> {
    ConcatMap(ActorsOf(f), DoomedNumOf)
  }

  /** A file's own list holds exactly the doomednums its actors carry. */
  lemma OwnDoomedNumsExact(f: DecorateFile, n: int)
    ensures n in OwnDoomedNums(f) <==>
      exists i :: 0 <= i < |ActorsOf(f)| && ActorsOf(f)[i].doomednum == Some(n)
  {
    InConcatMap(ActorsOf(f), DoomedNumOf, n);
    if n in OwnDoomedNums(f) {
      var i :| 0 <= i < |ActorsOf(f)| && n in DoomedNumOf(ActorsOf(f)[i]);
      assert ActorsOf(f)[i].doomednum == Some(n);
    }
    if exists i :: 0 <= i < |ActorsOf(f)| && ActorsOf(f)[i].doomednum == Some(n) {
      var i :| 0 <= i < |ActorsOf(f)| && ActorsOf(f)[i].doomednum == Some(n);
      assert n in DoomedNumOf(ActorsOf(f)[i]);
    }
  }

  /** `GetDoomedNums`: adds the file's doomednums and then, recursively,
      those of every file it includes, keeping duplicates. */
  method GetDoomedNums(file: DecorateFile, doomedNums: IntList)
    modifies doomedNums
    ensures doomedNums.items == old(doomedNums.items) + Walk(file, OwnDoomedNums)
    decreases file
  {
    if file.actors.Some? && |file.actors.value| != 0 {
      doomedNums.AddRange(ConcatMap(file.actors.value, DoomedNumOf));
    }
    ghost var start := doomedNums.items;
    assert start == old(doomedNums.items) + OwnDoomedNums(file);
    if file.includedFiles.Unparsed? {
      assert Walk(file, OwnDoomedNums) == OwnDoomedNums(file) + [];
      return;
    }
    var children := file.includedFiles.files;
    for i := 0 to |children|
      invariant doomedNums.items == start + WalkAll(children[..i], OwnDoomedNums)
    {
      ghost var before := doomedNums.items;
      GetDoomedNums(children[i], doomedNums);
      WalkAllStep(children, i, OwnDoomedNums, start, before, doomedNums.items);
    }
    assert children[..|children|] == children;
    AppendAssoc(old(doomedNums.items), OwnDoomedNums(file), WalkAll(children, OwnDoomedNums));
  }

  // ---- Sorting (`Order()`) ----

  predicate Ascending(xs: seq<int>) {
    forall i, j :: 0 <= i < j < |xs| ==> xs[i] <= xs[j]
  }

  /** `x` placed into an ascending list in front of the first larger-or-equal item. */
  function InsertSorted(x: int, xs: seq<int>): (r: seq<int>)
    requires Ascending(xs)
    ensures Ascending(r)
    ensures multiset(r) == multiset(xs) + multiset{x}
    ensures |r| == |xs| + 1 && (r[0] == x || (xs != [] && r[0] == xs[0]))
  {
    if xs == [] || x <= xs[0] then
      AscendingCons(x, xs);
      [x] + xs
    else
      var rest := InsertSorted(x, xs[1..]);
      assert xs == [xs[0]] + xs[1..];
      assert multiset(xs) == multiset{xs[0]} + multiset(xs[1..]);
      AscendingCons(xs[0], rest);
      [xs[0]] + rest
  }

  /** An item no larger than the head of an ascending list extends it. */
  lemma AscendingCons(a: int, xs: seq<int>)
    requires Ascending(xs) && (xs != [] ==> a <= xs[0])
    ensures Ascending([a] + xs)
  {
    var r := [a] + xs;
    forall i, j | 0 <= i < j < |r| ensures r[i] <= r[j] {
      if i > 0 {
        assert r[i] == xs[i - 1] && r[j] == xs[j - 1];
      } else {
        assert r[j] == xs[j - 1] && xs[0] <= xs[j - 1];
      }
    }
  }

  /** `Order()`: the items in ascending order, duplicates kept. */
  function Order(xs: seq<int>): (r: seq<int>)
    ensures Ascending(r)
    ensures multiset(r) == multiset(xs)
  {
    if xs == [] then []
    else
      assert xs == xs[..|xs| - 1] + [xs[|xs| - 1]];
      InsertSorted(xs[|xs| - 1], Order(xs[..|xs| - 1]))
  }

  // ---- The text ----

  /** One doomednum line: `// n`. */
  function DoomedNumLine(n: int): string {
    "// " + (IntToString(n) + NewLine)
  }

  /** `InsertDecorateDoomedNums`: nothing for an empty list; otherwise the
      title, one line per doomednum in ascending order, and a blank line. */
  function DoomedNumsText(nums: seq<int>): (s: string)
    ensures s == [] <==> nums == []
  {
    if nums == [] then [] else Line(DoomedNumsTitle) + ConcatMap(Order(nums), DoomedNumLine) + NewLine
  }

  /** The parent part of an actor line: `: Parent` only for a non-empty parent. */
  function ParentPart(a: DecorateActor): string {
    match a.inheritedFrom
    case Some(parent) => if parent != "" then ": " + parent else ""
    case None => ""
  }

  /** The doomednum part of an actor line: ` n` only when there is one. */
  function DoomedNumPart(a: DecorateActor): string {
    match a.doomednum
    case Some(n) => " " + IntToString(n)
    case None => ""
  }

  /** One actor line: `// Name`, then `: Parent` and ` n` when present. */
  function ActorLine(a: DecorateActor): (s: string)
    ensures StartsWith(s, "// " + a.name)
  {
    var s := "// " + a.name + ParentPart(a) + DoomedNumPart(a) + NewLine;
    assert s[..|"// " + a.name|] == "// " + a.name;
    s
  }

  /** The actor lines of a file's own actors. */
  function OwnActorLines(f: DecorateFile): string {
    ConcatMap(ActorsOf(f), ActorLine)
  }

  /** The local buffer `InsertDecorateSummary` fills for one actor. */
  method ActorDefinition(actor: DecorateActor) returns (d: string)
    ensures Line(d) == ActorLine(actor)
  {
    var definition := new StringBuilder();
    definition.Append("// ");
    definition.Append(actor.name);
    assert definition.text == "// " + actor.name;
    if actor.inheritedFrom.Some? && actor.inheritedFrom.value != "" {
      definition.Append(": " + actor.inheritedFrom.value);
    }
    assert definition.text == "// " + actor.name + ParentPart(actor);
    if actor.doomednum.Some? {
      ghost var before := definition.text;
      definition.Append(" ");
      definition.Append(IntToString(actor.doomednum.value));
      AppendAssoc(before, " ", IntToString(actor.doomednum.value));
    }
    assert definition.text == "// " + actor.name + ParentPart(actor) + DoomedNumPart(actor);
    d := definition.text;
  }

  /** The foreach over a file's actors in `InsertDecorateSummary`. */
  method AppendActorLines(actors: seq<DecorateActor>, sb: StringBuilder)
    modifies sb
    ensures sb.text == old(sb.text) + ConcatMap(actors, ActorLine)
  {
    for i := 0 to |actors|
      invariant sb.text == old(sb.text) + ConcatMap(actors[..i], ActorLine)
    {
      var definition := ActorDefinition(actors[i]);
      ghost var before := sb.text;
      sb.AppendLine(definition);
      ConcatMapStep(actors, i, ActorLine, old(sb.text), before, sb.text);
    }
    assert actors[..|actors|] == actors;
  }

  /** `InsertDecorateSummary`: the file's actor lines and then, recursively,
      those of every file it includes. */
  method InsertDecorateSummary(file: DecorateFile, sb: StringBuilder)
    modifies sb
    ensures sb.text == old(sb.text) + Walk(file, OwnActorLines)
    decreases file
  {
    if file.actors.Some? && |file.actors.value| != 0 {
      AppendActorLines(file.actors.value, sb);
    }
    ghost var start := sb.text;
    assert start == old(sb.text) + OwnActorLines(file);
    if file.includedFiles.Unparsed? {
      assert Walk(file, OwnActorLines) == OwnActorLines(file) + [];
      return;
    }
    var children := file.includedFiles.files;
    for i := 0 to |children|
      invariant sb.text == start + WalkAll(children[..i], OwnActorLines)
    {
      ghost var before := sb.text;
      InsertDecorateSummary(children[i], sb);
      WalkAllStep(children, i, OwnActorLines, start, before, sb.text);
    }
    assert children[..|children|] == children;
    AppendAssoc(old(sb.text), OwnActorLines(file), WalkAll(children, OwnActorLines));
  }

  /** `InsertDecorateDoomedNums`. */
  method InsertDecorateDoomedNums(doomedNums: seq<int>, sb: StringBuilder)
    modifies sb
    ensures sb.text == old(sb.text) + DoomedNumsText(doomedNums)
  {
    if |doomedNums| == 0 {
      return;
    }
    var ordered := Order(doomedNums);
    sb.AppendLine(DoomedNumsTitle);
    ghost var start := sb.text;
    for i := 0 to |ordered|
      invariant sb.text == start + ConcatMap(ordered[..i], DoomedNumLine)
    {
      ghost var before := sb.text;
      sb.Append("// ");
      sb.Append(IntToString(ordered[i]) + NewLine);
      AppendAssoc(before, "// ", IntToString(ordered[i]) + NewLine);
      ConcatMapStep(ordered, i, DoomedNumLine, start, before, sb.text);
    }
    assert ordered[..|ordered|] == ordered;
    sb.AppendNewLine();
    AppendAssoc(old(sb.text), Line(DoomedNumsTitle), ConcatMap(ordered, DoomedNumLine));
    AppendAssoc(old(sb.text), Line(DoomedNumsTitle) + ConcatMap(ordered, DoomedNumLine), NewLine);
  }

  // ---- The project summary ----

  /** What the summary holds before the header: the doomednum block for
      every doomednum of every tree, then the actor lines of every tree. */
  function SummaryBody(roots: seq<DecorateFile>): string {
    DoomedNumsText(WalkAll(roots, OwnDoomedNums)) + WalkAll(roots, OwnActorLines)
  }

  /** The assembly step of `GenerateDecorateSummaryForProjectAsync`: the
      text to write, or nothing when there are no root files or when
      neither doomednums nor actors were found. */
  function Summary(roots: Option<seq<DecorateFile>>): (out: Option<string>)
    ensures roots.None? ==> out.None?
    ensures roots.Some? ==> (out.None? <==> SummaryBody(roots.value) == [])
    ensures out.Some? ==> out.value == Header + NewLine + NewLine + SummaryBody(roots.value)
  {
    match roots
    case None => None
    case Some(files) =>
      var body := SummaryBody(files);
      if |body| == 0 then None else Some(Header + NewLine + NewLine + body)
  }

  /** `GenerateDecorateSummaryForProjectAsync`, up to the file write: the
      doomednums of all trees are collected first, then sorted and written,
      then the actor lines follow tree by tree. */
  method GenerateDecorateSummaryForProject(roots: Option<seq<DecorateFile>>) returns (out: Option<string>)
    ensures out == Summary(roots)
  {
    if roots.None? {
      return None;
    }
    var files := roots.value;
    var doomedNums := new IntList();
    for i := 0 to |files|
      invariant doomedNums.items == WalkAll(files[..i], OwnDoomedNums)
    {
      ghost var before := doomedNums.items;
      GetDoomedNums(files[i], doomedNums);
      WalkAllStep(files, i, OwnDoomedNums, [], before, doomedNums.items);
      assert [] + WalkAll(files[..i + 1], OwnDoomedNums) == WalkAll(files[..i + 1], OwnDoomedNums);
    }
    assert files[..|files|] == files;
    var sb := new StringBuilder();
    InsertDecorateDoomedNums(doomedNums.items, sb);
    assert sb.text == DoomedNumsText(doomedNums.items);
    ghost var start := sb.text;
    assert start == DoomedNumsText(WalkAll(files, OwnDoomedNums));
    for i := 0 to |files|
      invariant sb.text == start + WalkAll(files[..i], OwnActorLines)
    {
      ghost var before := sb.text;
      InsertDecorateSummary(files[i], sb);
      WalkAllStep(files, i, OwnActorLines, start, before, sb.text);
    }
    assert sb.text == SummaryBody(files);
    if |sb.text| == 0 {
      return None;
    }
    sb.Prepend(Header + NewLine + NewLine);
    return Some(sb.text);
  }

  // ---- What the summary promises ----

  /** The collected list is the doomednums of the tree's actors in walk order. */
  lemma DoomedNumsInWalkOrder(f: DecorateFile)
    ensures Walk(f, OwnDoomedNums) == ConcatMap(Walk(f, ActorsOf), DoomedNumOf)
  {
    WalkConcatMap(f, OwnDoomedNums, ActorsOf, DoomedNumOf);
  }

  /** The summary's actor part has one line per actor of the tree, in walk order. */
  lemma ActorLinesInWalkOrder(f: DecorateFile)
    ensures Walk(f, OwnActorLines) == ConcatMap(Walk(f, ActorsOf), ActorLine)
  {
    WalkConcatMap(f, OwnActorLines, ActorsOf, ActorLine);
  }

  /** The doomednums of a list of actors are exactly the ones they carry. */
  lemma DoomedNumOfSomeActor(actors: seq<DecorateActor>, n: int)
    ensures n in ConcatMap(actors, DoomedNumOf) <==> exists a :: a in actors && a.doomednum == Some(n)
  {
    InConcatMap(actors, DoomedNumOf, n);
    if exists a :: a in actors && a.doomednum == Some(n) {
      var a :| a in actors && a.doomednum == Some(n);
      var i :| 0 <= i < |actors| && actors[i] == a;
      assert n in DoomedNumOf(actors[i]);
    }
  }

  /** Sorting keeps exactly the numbers it was given. */
  lemma OrderKeepsMembers(xs: seq<int>, n: int)
    ensures n in Order(xs) <==> n in xs
  {
    assert n in Order(xs) <==> n in multiset(Order(xs));
    assert n in xs <==> n in multiset(xs);
  }

  /** A number is in the doomednum block exactly when some actor of some
      root's tree carries it. */
  lemma DoomedNumListedIffSomeActorHasIt(roots: seq<DecorateFile>, n: int)
    ensures n in Order(WalkAll(roots, OwnDoomedNums)) <==>
      exists a :: a in WalkAll(roots, ActorsOf) && a.doomednum == Some(n)
  {
    WalkAllConcatMap(roots, OwnDoomedNums, ActorsOf, DoomedNumOf);
    OrderKeepsMembers(WalkAll(roots, OwnDoomedNums), n);
    DoomedNumOfSomeActor(WalkAll(roots, ActorsOf), n);
  }

  /** A summary is written exactly when some tree holds an actor. */
  lemma {:induction false} ActorLinesEmptyIffNoActors(roots: seq<DecorateFile>)
    ensures WalkAll(roots, OwnActorLines) == [] <==> WalkAll(roots, ActorsOf) == []
    decreases roots, 0
  {
    if roots != [] {
      var last := |roots| - 1;
      ActorLinesEmptyIffNoActors(roots[..last]);
      ActorLinesEmptyIffNoActorsIn(roots[last]);
    }
  }

  lemma {:induction false} ActorLinesEmptyIffNoActorsIn(f: DecorateFile)
    ensures Walk(f, OwnActorLines) == [] <==> Walk(f, ActorsOf) == []
    decreases f, 1
  {
    ActorLinesEmptyIffNoActorsOwn(ActorsOf(f));
    match f.includedFiles
    case Unparsed =>
    case Included(children) =>
      ActorLinesEmptyIffNoActors(children);
  }

  /** Every actor line is non-empty, so a file's lines are empty only without actors. */
  lemma {:induction false} ActorLinesEmptyIffNoActorsOwn(actors: seq<DecorateActor>)
    ensures ConcatMap(actors, ActorLine) == [] <==> actors == []
  {
    if actors != [] {
      assert |ActorLine(actors[|actors| - 1])| > 0;
    }
  }
}
