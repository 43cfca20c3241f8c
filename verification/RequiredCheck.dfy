/** When nanopb reports a missing required field, in terms of the fields that occur in the input. */
module RequiredCheck {
  import opened Wrappers
  import opened Bits
  import opened Descriptors
  import opened WireFormat

  /** The fields that the decoding loop comes across in `s`, by their positions. */
  ghost function Occurring(fields: seq<Field>, st: State, s: seq<byte>): set<nat>
    requires ValidFields(fields) && StateOk(fields, st)
    decreases |s|
  {
    if s == [] || !DecodeTag(s).Tag? then {}
    else
      var Tag(wireType, tag, rest) := DecodeTag(s);
      match FindField(fields, tag)
      case Some(i) =>
        (match DecodeFieldAt(fields, st, i, wireType, rest)
         case Fail(_) => {}
         case Ok((st1, rest1)) => {i} + Occurring(fields, st1, rest1))
      case None =>
        match SkipField(wireType, rest)
        case None => {}
        case Some(rest1) => Occurring(fields, st, rest1)
  }

  /** Required field i is among the first 64, and its number is k. */
  ghost predicate Numbered(fields: seq<Field>, i: nat, k: nat) {
    i < |fields| && fields[i].htype.Required? && RequiredBefore(fields, i) == k < 64
  }

  ghost predicate Marked(fields: seq<Field>, occurring: set<nat>, k: nat) {
    exists i :: i in occurring && Numbered(fields, i, k)
  }

  lemma FieldMarks(fields: seq<Field>, st: State, i: nat, wireType: nat, s: seq<byte>, k: nat)
    requires ValidFields(fields) && StateOk(fields, st) && i < |fields|
    requires DecodeFieldAt(fields, st, i, wireType, s).Ok?
    ensures k in DecodeFieldAt(fields, st, i, wireType, s).value.0.seen <==> k in st.seen || Numbered(fields, i, k)
  {
    hide DecodeSlot, BadUnion;
  }

  /** The loop records exactly the numbers of the required fields that occur. */
  lemma {:induction false} SeenIsWhatOccurred(fields: seq<Field>, st: State, s: seq<byte>, k: nat)
    requires ValidFields(fields) && StateOk(fields, st) && !Run(fields, st, s).Failed?
    ensures k in Run(fields, st, s).st.seen <==> k in st.seen || Marked(fields, Occurring(fields, st, s), k)
    decreases |s|
  {
    hide DecodeFieldAt, DecodeTag, SkipField, ValidFields, StateOk;
    if s != [] && DecodeTag(s).Tag? {
      var Tag(wireType, tag, rest) := DecodeTag(s);
      match FindField(fields, tag) {
        case Some(i) =>
          var (st1, rest1) := DecodeFieldAt(fields, st, i, wireType, rest).value;
          FieldMarks(fields, st, i, wireType, rest, k);
          SeenIsWhatOccurred(fields, st1, rest1, k);
        case None =>
          SeenIsWhatOccurred(fields, st, SkipField(wireType, rest).value, k);
      }
    }
  }

  lemma {:induction false} NthRequired(fields: seq<Field>, n: nat, k: nat) returns (i: nat)
    requires n <= |fields| && k < RequiredBefore(fields, n)
    ensures i < n && fields[i].htype.Required? && RequiredBefore(fields, i) == k
  {
    if RequiredBefore(fields, n - 1) == k {
      i := n - 1;
    } else {
      i := NthRequired(fields, n - 1, k);
    }
  }

  lemma {:induction false} RequiredIncreases(fields: seq<Field>, i: nat, j: nat)
    requires i < j <= |fields| && fields[i].htype.Required?
    ensures RequiredBefore(fields, i) < RequiredBefore(fields, j)
    decreases j
  {
    if i < j - 1 {
      RequiredIncreases(fields, i, j - 1);
    }
  }

  lemma NumbersDistinct(fields: seq<Field>, i: nat, j: nat, k: nat)
    requires Numbered(fields, i, k) && Numbered(fields, j, k)
    ensures i == j
  {
    if i < j { RequiredIncreases(fields, i, j); }
    if j < i { RequiredIncreases(fields, j, i); }
  }

  /**
   * When the loop ends without an error of its own, decoding fails for a missing required field exactly when one
   * of the first 64 required fields never occurred in it.
   */
  lemma MissingExactlyWhenAbsent(fields: seq<Field>, slots: seq<Slot>, s: seq<byte>)
    requires ValidFields(fields) && SlotsOk(fields, slots)
    requires !Run(fields, Initial(slots), s).Failed? && !FixedIncomplete(fields, Run(fields, Initial(slots), s).st)
    ensures DecodeNoInit(fields, slots, s) == Fail(MissingRequired) <==>
            exists i, k :: Numbered(fields, i, k) && i !in Occurring(fields, Initial(slots), s)
  {
    var seen, occurring := Run(fields, Initial(slots), s).st.seen, Occurring(fields, Initial(slots), s);
    hide Run, Occurring;
    forall k: nat
      ensures k in seen <==> Marked(fields, occurring, k)
    {
      SeenIsWhatOccurred(fields, Initial(slots), s, k);
    }
    if MissingRequiredField(fields, seen) {
      var k :| 0 <= k < RequiredBefore(fields, |fields|) && k < MAX_REQUIRED && k !in seen;
      var i := NthRequired(fields, |fields|, k);
      assert Numbered(fields, i, k);
    }
    forall i, k | Numbered(fields, i, k) && i !in occurring
      ensures MissingRequiredField(fields, seen)
    {
      RequiredIncreases(fields, i, |fields|);
      if k in seen {
        var j :| j in occurring && Numbered(fields, j, k);
        NumbersDistinct(fields, i, j, k);
      }
    }
  }
}
