/**
 The names the daemon gives libvirt domains, and the parser that recovers project, display name
 and VM id from them.  Which characters are alphanumeric is a parameter.
*/
module DomainNames {
  import opened Common

  const PREFIX: string := "Boxer--"

  datatype Parsed = Parsed(project: string, display: string, vm: string)

  function Sanitised(s: string, alnum: char -> bool): (r: string)
    ensures |r| == |s|
    ensures forall i :: 0 <= i < |s| ==> r[i] == if alnum(s[i]) then s[i] else '-'
  {
    seq(|s|, i requires 0 <= i < |s| => if alnum(s[i]) then s[i] else '-')
  }

  function SafeName(display: string, alnum: char -> bool): string {
    var safe := Sanitised(display, alnum);
    if |safe| > 30 then safe[..30] else safe
  }

  function MakeName(project: string, display: string, vm: string, alnum: char -> bool): string {
    Printed(Parsed(project, SafeName(display, alnum), vm))
  }

  function Printed(parsed: Parsed): string {
    PREFIX + (parsed.project + ("--" + (parsed.display + ("--" + parsed.vm))))
  }

  /** Where the first double dash starts, or the length of `s`. */
  function DashesAt(s: string): (n: nat)
    ensures n <= |s|
    ensures n < |s| ==> n + 1 < |s| && s[n] == '-' && s[n + 1] == '-'
    ensures forall i :: 0 <= i < n && i + 1 < |s| ==> !(s[i] == '-' && s[i + 1] == '-')
  {
    if |s| < 2 then |s|
    else if s[0] == '-' && s[1] == '-' then 0
    else 1 + DashesAt(s[1..])
  }

  predicate VmIdLooksRight(vm: string) {
    "vm_" <= vm && |vm| >= 6
  }

  function Parse(name: string): Option<Parsed> {
    if PREFIX <= name then ParseRest(name[|PREFIX|..]) else None
  }

  /** At most two splits: dashes in the last part are its own. */
  function ParseRest(rest: string): Option<Parsed> {
    var i := DashesAt(rest);
    if i == |rest| then None
    else
      var tail := rest[i + 2..];
      var j := DashesAt(tail);
      if j == |tail| || !VmIdLooksRight(tail[j + 2..]) then None
      else Some(Parsed(rest[..i], tail[..j], tail[j + 2..]))
  }

  /** Nothing in `s`, nor its end next to a separator, can be taken for a separator. */
  predicate Separable(s: string) {
    && (forall i :: 0 <= i < |s| - 1 ==> !(s[i] == '-' && s[i + 1] == '-'))
    && (s != "" ==> s[|s| - 1] != '-')
  }

  // ------------------------------------------------------------------ lemmas

  lemma SeparableStep(s: string)
    requires s != ""
    ensures Separable(s) <==> !(s[0] == '-' && (|s| == 1 || s[1] == '-')) && Separable(s[1..])
  {
    if Separable(s[1..]) && !(s[0] == '-' && (|s| == 1 || s[1] == '-')) {
      assert forall i :: 0 < i < |s| ==> s[i] == s[1..][i - 1];
    }
    assert forall i :: 0 <= i < |s| - 1 ==> s[1..][i] == s[i + 1];
  }

  lemma {:induction false} DashesStep(s: string, rest: string)
    requires s != ""
    ensures DashesAt(s + ("--" + rest))
            == if s[0] == '-' && (|s| == 1 || s[1] == '-') then 0 else 1 + DashesAt(s[1..] + ("--" + rest))
  {
    var all := s + ("--" + rest);
    assert all[1..] == s[1..] + ("--" + rest);
    assert all[0] == s[0] && all[1] == if |s| == 1 then '-' else s[1];
  }

  lemma DashesFirst(rest: string)
    ensures DashesAt("--" + rest) == 0
  {
  }

  /** The first separator after `s` is the one put there exactly when `s` is separable. */
  lemma {:induction false} SplitsWhereJoined(s: string, rest: string)
    ensures DashesAt(s + ("--" + rest)) == |s| <==> Separable(s)
    ensures DashesAt(s + ("--" + rest)) <= |s|
  {
    hide Separable;
    hide DashesAt;
    if s == "" {
      EmptyIsSeparable();
      DashesFirst(rest);
      assert s + ("--" + rest) == "--" + rest;
    } else {
      SeparableStep(s);
      SplitsWhereJoined(s[1..], rest);
      DashesStep(s, rest);
    }
  }

  lemma EmptyIsSeparable()
    ensures Separable("")
  {
  }

  lemma CutDashes(s: string, n: nat)
    requires n + 1 < |s| && s[n] == '-' && s[n + 1] == '-'
    ensures s == s[..n] + ("--" + s[n + 2..])
  {
    var dashes := "--";
    assert forall i :: 0 <= i < |s| ==> s[i] == (s[..n] + (dashes + s[n + 2..]))[i];
  }

  lemma SplitAtDashes(s: string)
    requires DashesAt(s) < |s|
    ensures s == s[..DashesAt(s)] + ("--" + s[DashesAt(s) + 2..])
  {
    hide DashesAt;
    CutDashes(s, DashesAt(s));
  }

  /** What parses prints back: the three parts and the separators are the whole name. */
  lemma ParsedPrintsBack(name: string)
    requires Parse(name).Some?
    ensures Printed(Parse(name).value) == name
    ensures VmIdLooksRight(Parse(name).value.vm)
  {
    var rest := name[|PREFIX|..];
    assert name == PREFIX + rest;
    RestPrintsBack(rest);
  }

  lemma RestPrintsBack(rest: string)
    requires ParseRest(rest).Some?
    ensures var parsed := ParseRest(rest).value;
            && rest == parsed.project + ("--" + (parsed.display + ("--" + parsed.vm)))
            && VmIdLooksRight(parsed.vm)
  {
    hide DashesAt, VmIdLooksRight;
    SplitAtDashes(rest);
    SplitAtDashes(rest[DashesAt(rest) + 2..]);
  }

  /** Behind a separator inside the safe name there is no VM id: it would need an underscore. */
  lemma NoVmIdInside(safe: string, vm: string, j: nat)
    requires '_' !in safe
    requires j < |safe| && j + 2 <= |safe + ("--" + vm)|
    ensures !("vm_" <= (safe + ("--" + vm))[j + 2..])
  {
    var tail := safe + ("--" + vm);
    var id := tail[j + 2..];
    assert tail[|safe|] == '-' && tail[|safe| + 1] == '-';
    assert forall k :: 0 <= k < |safe| + 2 ==> tail[k] != '_';
    assert |id| >= 3 ==> id[0] == tail[j + 2] && id[2] == tail[j + 4];
  }

  lemma TailParses(safe: string, vm: string)
    requires '_' !in safe && VmIdLooksRight(vm)
    ensures var tail := safe + ("--" + vm);
            var j := DashesAt(tail);
            && j + 2 <= |tail|
            && (Separable(safe) ==> tail[..j] == safe && tail[j + 2..] == vm)
            && (!Separable(safe) ==> !VmIdLooksRight(tail[j + 2..]))
  {
    var tail := safe + ("--" + vm);
    var j := DashesAt(tail);
    SplitsWhereJoined(safe, vm);
    if Separable(safe) {
      assert tail[..j] == safe && tail[j + 2..] == vm;
    } else {
      NoVmIdInside(safe, vm, j);
    }
  }

  lemma ParsePrefixed(rest: string)
    ensures Parse(PREFIX + rest) == ParseRest(rest)
  {
    assert (PREFIX + rest)[|PREFIX|..] == rest;
  }

  lemma ParseOfPrinted(project: string, safe: string, vm: string)
    requires '_' !in safe && VmIdLooksRight(vm) && Separable(project)
    ensures Parse(Printed(Parsed(project, safe, vm)))
            == if Separable(safe) then Some(Parsed(project, safe, vm)) else None
  {
    hide Parse, DashesAt, Separable, VmIdLooksRight;
    var tail := safe + ("--" + vm);
    ParsePrefixed(project + ("--" + tail));
    ParseFirst(project, tail);
    TailParses(safe, vm);
  }

  /** Behind a separable project id the parser goes on with what follows the separator. */
  lemma {:induction false} ParseFirst(project: string, tail: string)
    requires Separable(project)
    ensures ParseRest(project + ("--" + tail))
            == var j := DashesAt(tail);
               if j == |tail| || !VmIdLooksRight(tail[j + 2..]) then None
               else Some(Parsed(project, tail[..j], tail[j + 2..]))
  {
    SplitsWhereJoined(project, tail);
    ParseBehind(project + ("--" + tail), project, tail);
  }

  lemma {:induction false} ParseBehind(rest: string, project: string, tail: string)
    requires rest == project + ("--" + tail) && DashesAt(rest) == |project|
    ensures ParseRest(rest)
            == var j := DashesAt(tail);
               if j == |tail| || !VmIdLooksRight(tail[j + 2..]) then None
               else Some(Parsed(project, tail[..j], tail[j + 2..]))
  {
    hide DashesAt, VmIdLooksRight;
    Halves(project, tail);
  }

  lemma Halves(before: string, after: string)
    ensures var s := before + ("--" + after);
            |s| == |before| + 2 + |after| && s[..|before|] == before && s[|before| + 2..] == after
  {
    var s := before + ("--" + after);
    assert forall i :: 0 <= i < |after| ==> s[|before| + 2 + i] == after[i];
  }

  lemma SafeNameHasNoUnderscore(display: string, alnum: char -> bool)
    requires !alnum('_')
    ensures '_' !in SafeName(display, alnum) && |SafeName(display, alnum)| <= 30
  {
  }

  /**
   With a separable project id a generated name parses to the right triple or to nothing, and to
   nothing exactly when the safe name, cut to 30 characters, holds a double dash or ends in one.
  */
  lemma NeverAWrongTriple(project: string, display: string, vm: string, alnum: char -> bool)
    requires !alnum('_') && VmIdLooksRight(vm) && Separable(project)
    ensures var safe := SafeName(display, alnum);
            Parse(MakeName(project, display, vm, alnum))
            == if Separable(safe) then Some(Parsed(project, safe, vm)) else None
  {
    SafeNameHasNoUnderscore(display, alnum);
    ParseOfPrinted(project, SafeName(display, alnum), vm);
  }

  /** For any project id at all: the right triple comes back exactly when both parts are separable. */
  lemma RoundTripsIff(project: string, display: string, vm: string, alnum: char -> bool)
    requires !alnum('_') && VmIdLooksRight(vm)
    ensures var safe := SafeName(display, alnum);
            Parse(MakeName(project, display, vm, alnum)) == Some(Parsed(project, safe, vm))
            <==> Separable(project) && Separable(safe)
  {
    hide Parse, DashesAt, Separable, SafeName, VmIdLooksRight;
    var safe := SafeName(display, alnum);
    if Separable(project) {
      NeverAWrongTriple(project, display, vm, alnum);
    } else {
      var tail := safe + ("--" + vm);
      var rest := project + ("--" + tail);
      SplitsWhereJoined(project, tail);
      ParsePrefixed(rest);
      assert |rest[..DashesAt(rest)]| < |project|;
    }
  }

  /** Any triple but the right one. */
  ghost predicate Misparsed(project: string, display: string, vm: string, alnum: char -> bool) {
    var parsed := Parse(MakeName(project, display, vm, alnum));
    parsed.Some? && parsed.value != Parsed(project, SafeName(display, alnum), vm)
  }

  predicate HasDoubleDash(s: string) {
    exists i | 0 <= i < |s| - 1 :: s[i] == '-' && s[i + 1] == '-'
  }

  predicate EndsInDash(s: string) {
    s != "" && s[|s| - 1] == '-'
  }

  lemma SeparableIff(s: string)
    ensures Separable(s) <==> !HasDoubleDash(s) && !EndsInDash(s)
  {
  }

  /** The dash at the end of the project id goes to the display name. */
  lemma TrailingDashShifts(before: string, safe: string, vm: string)
    ensures Printed(Parsed(before + "-", safe, vm)) == Printed(Parsed(before, "-" + safe, vm))
  {
    var rest := "--" + vm;
    assert (before + "-") + ("--" + (safe + rest)) == before + ("--" + (("-" + safe) + rest));
  }

  /**
   For every project id without a double dash: a wrong triple comes back if and only if the id ends
   in a dash and the safe name behind a dash can still be told apart, and it is this one.
  */
  lemma TrailingDashMisparses(project: string, display: string, vm: string, alnum: char -> bool)
    requires !alnum('_') && VmIdLooksRight(vm) && !HasDoubleDash(project)
    ensures var safe := SafeName(display, alnum);
            && (Misparsed(project, display, vm, alnum) <==> EndsInDash(project) && Separable("-" + safe))
            && (Misparsed(project, display, vm, alnum) ==>
                  Parse(MakeName(project, display, vm, alnum)).value
                  == Parsed(project[..|project| - 1], "-" + safe, vm))
  {
    hide Parse, Separable, SafeName, VmIdLooksRight, HasDoubleDash;
    var safe := SafeName(display, alnum);
    SeparableIff(project);
    SafeNameHasNoUnderscore(display, alnum);
    if EndsInDash(project) {
      var before := project[..|project| - 1];
      assert project == before + "-";
      BeforeTrailingDash(project);
      TrailingDashShifts(before, safe, vm);
      ParseOfPrinted(before, "-" + safe, vm);
    } else {
      NeverAWrongTriple(project, display, vm, alnum);
    }
  }

  lemma BeforeTrailingDash(project: string)
    requires EndsInDash(project) && !HasDoubleDash(project)
    ensures Separable(project[..|project| - 1])
  {
    var before := project[..|project| - 1];
    assert forall i :: 0 <= i < |project| - 1 ==> !(project[i] == '-' && project[i + 1] == '-');
    assert before != "" ==> before[|before| - 1] == project[|project| - 2];
  }

  // ------------------------------------------------------------------ names and ids letter by letter

  /** A name is the three parts between fixed marks; the display name loses what is not alphanumeric. */
  lemma NamesAre(project: string, display: string, vm: string, alnum: char -> bool)
    ensures var safe := SafeName(display, alnum);
            && MakeName(project, display, vm, alnum) == "Boxer--" + (project + ("--" + (safe + ("--" + vm))))
            && |safe| == (if |display| < 30 then |display| else 30)
            && forall i :: 0 <= i < |safe| ==> safe[i] == if alnum(display[i]) then display[i] else '-'
  {
  }

  lemma IdLooksRightIff(vm: string)
    ensures VmIdLooksRight(vm) <==> |vm| >= 6 && vm[0] == 'v' && vm[1] == 'm' && vm[2] == '_'
  {
  }

  lemma {:induction false} RestParsesIff(rest: string, project: string, display: string, vm: string)
    requires rest == project + ("--" + (display + ("--" + vm)))
    ensures ParseRest(rest) == Some(Parsed(project, display, vm)) <==>
              Separable(project) && Separable(display) && VmIdLooksRight(vm)
  {
    hide DashesAt, Separable, VmIdLooksRight;
    var tail := display + ("--" + vm);
    SplitsWhereJoined(project, tail);
    SplitsWhereJoined(display, vm);
    Halves(project, tail);
    Halves(display, vm);
    if ParseRest(rest) == Some(Parsed(project, display, vm)) {
      var i := DashesAt(rest);
      assert |rest[..i]| == i;
      assert rest[i + 2..] == tail;
      assert |tail[..DashesAt(tail)]| == DashesAt(tail);
    }
  }

  /**
   Exactly what parses, and to what: `Boxer--`, a project and a display name that end where their
   separators begin, and an id of at least six characters that starts with `vm_`.
  */
  lemma {:induction false} ParsesIff(name: string, project: string, display: string, vm: string)
    ensures Parse(name) == Some(Parsed(project, display, vm)) <==>
            && name == "Boxer--" + (project + ("--" + (display + ("--" + vm))))
            && Separable(project) && Separable(display)
            && |vm| >= 6 && vm[0] == 'v' && vm[1] == 'm' && vm[2] == '_'
  {
    hide Parse, ParseRest, Separable, VmIdLooksRight;
    var rest := project + ("--" + (display + ("--" + vm)));
    IdLooksRightIff(vm);
    RestParsesIff(rest, project, display, vm);
    ParsePrefixed(rest);
    if Parse(name) == Some(Parsed(project, display, vm)) {
      ParsedPrintsBack(name);
    }
  }

  /** Every generated id, `vm_` and six hexadecimal digits, is an id to the parser. */
  lemma GeneratedIdsParse(project: string, display: string, digits: string, alnum: char -> bool)
    requires !alnum('_') && |digits| == 6
    ensures var vm := "vm_" + digits;
            var safe := SafeName(display, alnum);
            Parse(MakeName(project, display, vm, alnum)) == Some(Parsed(project, safe, vm))
            <==> Separable(project) && Separable(safe)
  {
    RoundTripsIff(project, display, "vm_" + digits, alnum);
  }
}
