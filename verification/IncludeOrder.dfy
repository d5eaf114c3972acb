// _IncludeState: sections of #include lines.
module IncludeOrder {
  import opened Text

  datatype Kind = CSys | CppSys | LikelyMy | PossibleMy | OtherHeader

  const INITIAL_SECTION := 0
  const MY_H_SECTION := 1
  const C_SECTION := 2
  const CPP_SECTION := 3
  const OTHER_H_SECTION := 4

  predicate IsOwn(k: Kind) { k.LikelyMy? || k.PossibleMy? }

  function TypeName(k: Kind): string {
    match k
    case CSys => "C system header"
    case CppSys => "C++ system header"
    case LikelyMy => "header this file implements"
    case PossibleMy => "header this file may implement"
    case OtherHeader => "other header"
  }

  function SectionName(s: nat): string {
    if s == INITIAL_SECTION then "... nothing. (This can't be an error.)"
    else if s == MY_H_SECTION then "a header this file implements"
    else if s == C_SECTION then "C system header"
    else if s == CPP_SECTION then "C++ system header"
    else "other header"
  }

  // The section after a header, None when the header is out of order.
  function Advance(s: nat, k: Kind): Option<nat> {
    match k
    case CSys => if s <= C_SECTION then Some(C_SECTION) else None
    case CppSys => if s <= CPP_SECTION then Some(CPP_SECTION) else None
    case OtherHeader => Some(OTHER_H_SECTION)
    case _ => Some(if s <= MY_H_SECTION then MY_H_SECTION else OTHER_H_SECTION)
  }

  function Found(k: Kind, s: nat): string { "Found " + TypeName(k) + " after " + SectionName(s) }

  // The three messages there are.
  ghost function Complaint(k: Kind, s: nat): (m: string)
    ensures m != ""
  {
    if k.CppSys? then "Found " + "C++ system header" + " after " + "other header"
    else if s == 3 then "Found " + "C system header" + " after " + "C++ system header"
    else "Found " + "C system header" + " after " + "other header"
  }

  lemma FoundIsComplaint(k: Kind, s: nat)
    requires s <= OTHER_H_SECTION && Advance(s, k).None?
    ensures Found(k, s) == Complaint(k, s)
  {
  }

  class IncludeState {
    var includeList: seq<seq<(string, nat)>>
    var section: nat
    var lastHeader: string

    constructor ()
      ensures includeList == [[]] && section == INITIAL_SECTION && lastHeader == ""
    {
      includeList, section, lastHeader := [[]], INITIAL_SECTION, "";
    }

    method ResetSection(directive: string)
      requires includeList != []
      modifies this
      ensures section == INITIAL_SECTION && lastHeader == ""
      ensures includeList ==
              if directive in ["if", "ifdef", "ifndef"] then old(includeList) + [[]]
              else if directive in ["else", "elif"] then old(includeList)[|old(includeList)| - 1 := []]
              else old(includeList)
    {
      section, lastHeader := INITIAL_SECTION, "";
      if directive in ["if", "ifdef", "ifndef"] {
        includeList := includeList + [[]];
      } else if directive in ["else", "elif"] {
        includeList := includeList[|includeList| - 1 := []];
      }
    }

    // An empty message means that the header is in order.
    method CheckNextIncludeOrder(k: Kind) returns (message: string)
      requires section <= OTHER_H_SECTION
      modifies `section, `lastHeader
      ensures section <= OTHER_H_SECTION
      ensures match Advance(old(section), k) case Some(s) => message == "" && section == s case None => message != ""
      ensures message == "" <==> !(k.CSys? && old(section) > 2) && !(k.CppSys? && old(section) > 3)
      ensures message == "" ==>
                section == match k
                           case CSys => 2
                           case CppSys => 3
                           case OtherHeader => 4
                           case _ => if old(section) <= 1 then 1 else 4
      ensures message != "" ==> section == old(section) && message == Complaint(k, section)
      ensures lastHeader == if message == "" && section == old(section) then old(lastHeader) else ""
    {
      var errorMessage := Found(k, section);
      if Advance(section, k).None? { FoundIsComplaint(k, section); }
      var lastSection := section;
      if k == CSys {
        if section <= C_SECTION {
          section := C_SECTION;
        } else {
          lastHeader := "";
          return errorMessage;
        }
      } else if k == CppSys {
        if section <= CPP_SECTION {
          section := CPP_SECTION;
        } else {
          lastHeader := "";
          return errorMessage;
        }
      } else if k == LikelyMy || k == PossibleMy {
        section := if section <= MY_H_SECTION then MY_H_SECTION else OTHER_H_SECTION;
      } else {
        section := OTHER_H_SECTION;
      }
      if lastSection != section { lastHeader := ""; }
      return "";
    }
  }

  // A whole run between two resets: the sections after each header, and which headers are in error.
  function SectionAfter(ks: seq<Kind>, s: nat): nat {
    if ks == [] then s
    else SectionAfter(ks[1..], match Advance(s, ks[0]) case Some(s') => s' case None => s)
  }

  predicate NoErrors(ks: seq<Kind>, s: nat) {
    ks == [] || (Advance(s, ks[0]).Some? && NoErrors(ks[1..], Advance(s, ks[0]).value))
  }

  lemma {:induction false} SectionsNeverDecrease(ks: seq<Kind>, n: nat, s: nat)
    requires n <= |ks| && s <= OTHER_H_SECTION
    ensures s <= SectionAfter(ks[..n], s) <= SectionAfter(ks, s) <= OTHER_H_SECTION
  {
    if ks != [] {
      var s' := match Advance(s, ks[0]) case Some(s') => s' case None => s;
      if n > 0 {
        assert ks[..n][1..] == ks[1..][..n - 1];
        SectionsNeverDecrease(ks[1..], n - 1, s');
      } else {
        SectionsNeverDecrease(ks[1..], 0, s');
      }
    }
  }

  // ks splits as own* C* C++* (own or other)*, the parts ending at i, j and k.
  predicate Splits(ks: seq<Kind>, i: nat, j: nat, k: nat) {
    && i <= j <= k <= |ks|
    && (forall n :: 0 <= n < i ==> IsOwn(ks[n]))
    && (forall n :: i <= n < j ==> ks[n] == CSys)
    && (forall n :: j <= n < k ==> ks[n] == CppSys)
    && (forall n :: k <= n < |ks| ==> IsOwn(ks[n]) || ks[n] == OtherHeader)
  }

  // In a later section the earlier parts are empty.
  ghost predicate SplitsFrom(ks: seq<Kind>, s: nat) {
    exists i, j, k :: Splits(ks, i, j, k) &&
      (s > MY_H_SECTION ==> i == 0) && (s > C_SECTION ==> j == 0) && (s > CPP_SECTION ==> k == 0)
  }

  lemma {:induction false} OrderIsExact(ks: seq<Kind>, s: nat)
    requires s <= OTHER_H_SECTION
    ensures NoErrors(ks, s) <==> SplitsFrom(ks, s)
  {
    if ks == [] {
      assert Splits(ks, 0, 0, 0);
    } else {
      var rest, next := ks[1..], Advance(s, ks[0]);
      if next.Some? { OrderIsExact(rest, next.value); }
      if NoErrors(ks, s) {
        var i: nat, j: nat, k: nat :| Splits(rest, i, j, k) && (next.value > MY_H_SECTION ==> i == 0) &&
          (next.value > C_SECTION ==> j == 0) && (next.value > CPP_SECTION ==> k == 0);
        Prepend(ks, s, i, j, k);
      }
      if SplitsFrom(ks, s) {
        var i: nat, j: nat, k: nat :| Splits(ks, i, j, k) &&
          (s > MY_H_SECTION ==> i == 0) && (s > C_SECTION ==> j == 0) && (s > CPP_SECTION ==> k == 0);
        assert ks[0] == CSys ==> i == 0 < j;
        assert ks[0] == CppSys ==> j == 0 < k;
        assert Splits(rest, if i > 0 then i - 1 else 0, if j > 0 then j - 1 else 0, if k > 0 then k - 1 else 0);
      }
    }
  }

  lemma Prepend(ks: seq<Kind>, s: nat, i: nat, j: nat, k: nat)
    requires ks != [] && s <= OTHER_H_SECTION && Advance(s, ks[0]).Some? && Splits(ks[1..], i, j, k)
    requires var s' := Advance(s, ks[0]).value;
             (s' > MY_H_SECTION ==> i == 0) && (s' > C_SECTION ==> j == 0) && (s' > CPP_SECTION ==> k == 0)
    ensures SplitsFrom(ks, s)
  {
    var rest := ks[1..];
    assert forall n :: 1 <= n < |ks| ==> ks[n] == rest[n - 1];
    if IsOwn(ks[0]) && s <= MY_H_SECTION {
      assert Splits(ks, i + 1, j + 1, k + 1);
    } else if ks[0] == CSys {
      assert Splits(ks, 0, j + 1, k + 1);
    } else if ks[0] == CppSys {
      assert Splits(ks, 0, 0, k + 1);
    } else {
      assert Splits(ks, 0, 0, 0);
    }
  }

  // From a reset, no header is reported exactly when the kinds follow the pattern.
  lemma IncludeOrderTheorem(ks: seq<Kind>)
    ensures NoErrors(ks, INITIAL_SECTION) <==> exists i, j, k :: Splits(ks, i, j, k)
  {
    OrderIsExact(ks, INITIAL_SECTION);
  }

  predicate NoMessage(messages: seq<string>) { forall n :: 0 <= n < |messages| ==> messages[n] == "" }

  // The headers of a section checked one by one: no message is reported exactly when the kinds
  // follow the rest of the pattern, after a reset the whole of it.
  method CheckIncludes(state: IncludeState, ks: seq<Kind>) returns (messages: seq<string>)
    requires state.section <= OTHER_H_SECTION
    modifies state
    ensures |messages| == |ks| && state.section == SectionAfter(ks, old(state.section))
    ensures NoMessage(messages) <==> SplitsFrom(ks, old(state.section))
    ensures old(state.section) == INITIAL_SECTION ==>
              (NoMessage(messages) <==> exists i, j, k :: Splits(ks, i, j, k))
  {
    ghost var start := state.section;
    messages := [];
    assert ks[0..] == ks;
    for i := 0 to |ks|
      invariant |messages| == i && state.section <= OTHER_H_SECTION
      invariant SectionAfter(ks, start) == SectionAfter(ks[i..], state.section)
      invariant NoErrors(ks, start) <==> NoMessage(messages) && NoErrors(ks[i..], state.section)
    {
      ghost var before, rest := state.section, ks[i..];
      assert rest[0] == ks[i] && rest[1..] == ks[i + 1..];
      var message := state.CheckNextIncludeOrder(ks[i]);
      assert message == "" <==> Advance(before, ks[i]).Some?;
      assert NoMessage(messages + [message]) <==> NoMessage(messages) && message == "" by {
        assert (messages + [message])[i] == message;
        assert forall n :: 0 <= n < i ==> (messages + [message])[n] == messages[n];
      }
      messages := messages + [message];
    }
    OrderIsExact(ks, start);
    if start == INITIAL_SECTION { IncludeOrderTheorem(ks); }
  }
}
