/** DECORATE actor headers: the file's actor list is replaced by one record
    per `actor Name [: Parent] [doomednum]` match, in document order. Both
    copies of the parser share this logic. */
module ActorParser {
  import opened Common
  import opened Text
  import opened DecorateContext

  /** One match of `^actor (?<actorName>…)(\s+: (?<inheritedFrom>…))?( (?<doomedNum>\d*))?`:
      the whole matched text and the three groups. */
  datatype ActorMatch = ActorMatch(value: string, actorName: Group, inheritedFrom: Group, doomedNum: Group)

  /** The record one match yields. The parent is the group's `Value`, which
      is the empty string, not null, when the parent clause is absent; the
      doomednum is the Int32 parse of the digit capture, or null when that
      does not parse (no digits, or a value beyond Int32). */
  function ActorOf(m: ActorMatch): (a: DecorateActor)
    ensures a.definition == m.value
    ensures a.name == m.actorName.Value()
    ensures a.inheritedFrom.Some?
    ensures !m.inheritedFrom.Success() ==> a.inheritedFrom == Some("")
    ensures m.inheritedFrom.Success() ==> a.inheritedFrom == Some(m.inheritedFrom.text)
    ensures a.doomednum.Some? <==> TryParseInt32(m.doomedNum.Value()).Some?
    ensures a.doomednum.Some? ==> IsInt32(a.doomednum.value)
  {
    DecorateActor(m.value, m.actorName.Value(), Some(m.inheritedFrom.Value()), TryParseInt32(m.doomedNum.Value()))
  }

  /** `ParseAsync`: the actor list is replaced by one record per match, in
      order; no other field changes and the task never fails (the name group
      takes part in every match). */
  function ActorsParsed(file: DecorateFile, matches: seq<ActorMatch>): (s: Step<DecorateFile>)
    ensures s.err.None?
    ensures s.doc == file.(actors := s.doc.actors)
    ensures s.doc.actors.Some?
    ensures |s.doc.actors.value| == |matches|
    ensures forall i :: 0 <= i < |matches| ==> s.doc.actors.value[i] == ActorOf(matches[i])
  {
    Step(file.(actors := Some(seq(|matches|, i requires 0 <= i < |matches| => ActorOf(matches[i])))), None)
  }

  /** The doomednum written in decimal is read back. */
  lemma DoomednumRead(m: ActorMatch, n: nat)
    requires n <= MaxInt32 && m.doomedNum.Value() == IntToString(n)
    ensures ActorOf(m).doomednum == Some(n)
  {
    ParseFormatRoundTrip(n);
  }

  /** An empty digit capture, or a missing one, gives no doomednum. */
  lemma NoDigitsNoDoomednum(m: ActorMatch)
    requires m.doomedNum.Value() == ""
    ensures ActorOf(m).doomednum.None?
  {
  }

  /** Digits beyond Int32 give no doomednum rather than an error. */
  lemma OverflowGivesNoDoomednum(m: ActorMatch, n: nat)
    requires n > MaxInt32 && m.doomedNum.Value() == NaturalToString(n)
    ensures ActorOf(m).doomednum.None?
  {
    var ds := NaturalToString(n);
    NaturalToStringDigits(n);
    assert !IsNumberSpace(ds[0]) && !IsNumberSpace(ds[|ds| - 1]);
    assert DropNumberSpace(ds) == ds;
    assert DropTrailingNumberSpace(ds) == ds;
  }
}
