/**
 safeMemberPath and the claims of archive-repack/main.go: which names may enter an
 archive, and which names may live in it side by side.
 */
module MemberPaths {
  import opened Wrappers

  // ----- names and their parts

  /** The position of the last slash, or -1. */
  function LastSlash(s: string): (i: int)
    ensures -1 <= i < |s|
    ensures i >= 0 ==> s[i] == '/'
    ensures forall j :: i < j < |s| ==> s[j] != '/'
  {
    if s == "" then -1
    else if s[|s| - 1] == '/' then |s| - 1
    else LastSlash(s[..|s| - 1])
  }

  function Split(s: string): (parts: seq<string>)
    ensures parts != []
    ensures forall p :: p in parts ==> '/' !in p
    decreases |s|
  {
    var i := LastSlash(s);
    if i < 0 then [s] else Split(s[..i]) + [s[i + 1..]]
  }

  function Join(parts: seq<string>): string {
    if parts == [] then ""
    else if |parts| == 1 then parts[0]
    else Join(parts[..|parts| - 1]) + "/" + parts[|parts| - 1]
  }

  /** Backslashes count as slashes. */
  function Slashes(name: string): (r: string)
    ensures |r| == |name|
    ensures forall i :: 0 <= i < |r| ==> r[i] == if name[i] == '\\' then '/' else name[i]
  {
    if name == "" then "" else [if name[0] == '\\' then '/' else name[0]] + Slashes(name[1..])
  }

  predicate Skipped(part: string) { part == "" || part == "." }

  function Kept(parts: seq<string>): (r: seq<string>)
    ensures forall p :: p in r <==> p in parts && !Skipped(p)
  {
    if parts == [] then []
    else
      var front, last := Kept(parts[..|parts| - 1]), parts[|parts| - 1];
      if Skipped(last) then front else front + [last]
  }

  /** What safeMemberPath returns; None for its error. */
  function Safe(name: string): Option<string> {
    var n := Slashes(name);
    var kept := Kept(Split(n));
    if (n != "" && n[0] == '/') || ".." in Split(n) || kept == [] || ':' in kept[0] then None
    else Some(Join(kept))
  }

  lemma KeptNext(parts: seq<string>, i: nat)
    requires i < |parts|
    ensures Kept(parts[..i + 1]) == if Skipped(parts[i]) then Kept(parts[..i]) else Kept(parts[..i]) + [parts[i]]
    ensures ".." in parts[..i + 1] <==> ".." in parts[..i] || parts[i] == ".."
  {
    assert parts[..i + 1][..i] == parts[..i];
    assert parts[..i + 1] == parts[..i] + [parts[i]];
  }

  method SafeMemberPath(name: string) returns (r: Option<string>)
    ensures r == Safe(name)
  {
    var n := Slashes(name);
    if n != "" && n[0] == '/' { return None; }
    var split := Split(n);
    var parts: seq<string> := [];
    for i := 0 to |split|
      invariant parts == Kept(split[..i])
      invariant ".." !in split[..i]
    {
      var part := split[i];
      KeptNext(split, i);
      if part == "" || part == "." { continue; }
      if part == ".." { return None; }
      parts := parts + [part];
    }
    assert split[..|split|] == split;
    if parts == [] || ':' in parts[0] { return None; }
    return Some(Join(parts));
  }

  /** A name that stays below the directory it is unpacked in. */
  predicate Clean(name: string) {
    && '\\' !in name
    && ':' !in Split(name)[0]
    && forall p :: p in Split(name) ==> !Skipped(p) && p != ".."
  }

  lemma {:induction false} LastSlashAppend(s: string, t: string)
    requires '/' !in t
    ensures LastSlash(s + "/" + t) == |s|
    decreases |t|
  {
    var whole := s + "/" + t;
    assert whole[|s|] == '/';
    assert forall j :: |s| < j < |whole| ==> whole[j] == t[j - |s| - 1];
  }

  lemma SplitAppend(s: string, t: string)
    requires '/' !in t
    ensures Split(s + "/" + t) == Split(s) + [t]
  {
    var whole := s + "/" + t;
    LastSlashAppend(s, t);
    assert whole[..|s|] == s && whole[|s| + 1..] == t;
  }

  lemma SplitOne(p: string)
    requires '/' !in p
    ensures Split(p) == [p] && Join([p]) == p
  {
  }

  lemma JoinMore(front: seq<string>, last: string)
    requires front != []
    ensures Join(front + [last]) == Join(front) + "/" + last
  {
    assert (front + [last])[..|front|] == front;
  }

  lemma {:induction false} SplitJoin(parts: seq<string>)
    requires parts != [] && forall p :: p in parts ==> '/' !in p
    ensures Split(Join(parts)) == parts
  {
    var front, last := parts[..|parts| - 1], parts[|parts| - 1];
    assert last in parts && parts == front + [last];
    if front == [] {
      SplitOne(last);
      assert parts == [last];
    } else {
      SplitJoin(front);
      JoinMore(front, last);
      SplitAppend(Join(front), last);
    }
  }

  lemma {:induction false} JoinSplit(s: string)
    ensures Join(Split(s)) == s
    decreases |s|
  {
    var i := LastSlash(s);
    if i >= 0 {
      JoinSplit(s[..i]);
      assert Split(s)[..|Split(s)| - 1] == Split(s[..i]);
      assert s == s[..i] + "/" + s[i + 1..];
    }
  }

  lemma {:induction false} JoinChars(parts: seq<string>, c: char)
    requires c != '/' && forall p :: p in parts ==> c !in p
    ensures c !in Join(parts)
  {
    if |parts| > 1 { JoinChars(parts[..|parts| - 1], c); }
  }

  lemma {:induction false} SplitChars(s: string, c: char)
    requires c !in s
    ensures forall p :: p in Split(s) ==> c !in p
    decreases |s|
  {
    var i := LastSlash(s);
    if i >= 0 { SplitChars(s[..i], c); }
  }

  lemma {:induction false} KeptAll(parts: seq<string>)
    requires forall p :: p in parts ==> !Skipped(p)
    ensures Kept(parts) == parts
  {
    if parts != [] { KeptAll(parts[..|parts| - 1]); }
  }

  /** An accepted name is clean, and its parts are the ordinary parts of the given name, in order. */
  lemma SafeIsClean(name: string)
    requires Safe(name).Some?
    ensures Clean(Safe(name).value)
    ensures Split(Safe(name).value) == Kept(Split(Slashes(name)))
  {
    var n := Slashes(name);
    var kept := Kept(Split(n));
    SplitJoin(kept);
    assert '\\' !in n;
    SplitChars(n, '\\');
    JoinChars(kept, '\\');
  }

  lemma SlashesOfClean(s: string)
    requires '\\' !in s
    ensures Slashes(s) == s
  {
    assert forall i :: 0 <= i < |s| ==> s[i] in s;
  }

  lemma {:induction false} FirstPartEmpty(s: string)
    requires s != "" && s[0] == '/'
    ensures Split(s)[0] == ""
    decreases |s|
  {
    var i := LastSlash(s);
    if i > 0 { FirstPartEmpty(s[..i]); }
  }

  lemma CleanIsSafe(name: string)
    requires Clean(name)
    ensures Safe(name) == Some(name)
  {
    SlashesOfClean(name);
    KeptAll(Split(name));
    JoinSplit(name);
    assert ".." !in Split(name);
    assert Split(name)[0] in Split(name);
    if name != "" && name[0] == '/' { FirstPartEmpty(name); }
  }

  /** The names accepted as they are, are exactly the clean names; so accepting twice changes nothing. */
  lemma SafeFixedPoints(name: string)
    ensures Safe(name) == Some(name) <==> Clean(name)
  {
    if Safe(name) == Some(name) { SafeIsClean(name); }
    if Clean(name) { CleanIsSafe(name); }
  }

  /** No part leads up, and the first ordinary one, which is there, names no drive. */
  ghost predicate Acceptable(parts: seq<string>) {
    && ".." !in parts
    && exists i :: 0 <= i < |parts| && FirstOrdinary(parts, i) && ':' !in parts[i]
  }

  predicate FirstOrdinary(parts: seq<string>, i: nat)
    requires i < |parts|
  {
    !Skipped(parts[i]) && forall j :: 0 <= j < i ==> Skipped(parts[j])
  }

  lemma {:induction false} FirstKept(parts: seq<string>) returns (i: nat)
    requires Kept(parts) != []
    ensures i < |parts| && FirstOrdinary(parts, i) && Kept(parts)[0] == parts[i]
  {
    var front := parts[..|parts| - 1];
    if Kept(front) != [] {
      i := FirstKept(front);
    } else {
      i := |front|;
      forall j | 0 <= j < i ensures Skipped(parts[j]) { assert front[j] in front; }
    }
  }

  lemma OneIsFirst(parts: seq<string>, i: nat, j: nat)
    requires i < |parts| && j < |parts| && FirstOrdinary(parts, i) && FirstOrdinary(parts, j)
    ensures i == j
  {
  }

  lemma AcceptableIff(parts: seq<string>)
    ensures Acceptable(parts) <==> ".." !in parts && Kept(parts) != [] && ':' !in Kept(parts)[0]
  {
    if Acceptable(parts) {
      var i :| 0 <= i < |parts| && FirstOrdinary(parts, i) && ':' !in parts[i];
      SomeKept(parts, i);
    }
    if Kept(parts) != [] {
      var i := FirstKept(parts);
      forall j: nat | j < |parts| && FirstOrdinary(parts, j) ensures j == i { OneIsFirst(parts, i, j); }
    }
  }

  lemma SomeKept(parts: seq<string>, i: nat)
    requires i < |parts| && !Skipped(parts[i])
    ensures Kept(parts) != []
  {
    assert parts[i] in Kept(parts);
  }

  /** With backslashes as slashes, a name is refused exactly when it is rooted or its parts are not acceptable. */
  lemma SafeIff(name: string)
    ensures Safe(name).Some? <==> !(name != "" && (name[0] == '/' || name[0] == '\\')) && Acceptable(Split(Slashes(name)))
  {
    AcceptableIff(Split(Slashes(name)));
  }

  /** One slash behind a clean name, or one dot, is dropped. */
  lemma TrailingSlash(name: string)
    requires Clean(name)
    ensures Safe(name + "/") == Some(name) && Safe(name + "/.") == Some(name)
  {
    Trailing(name, "");
    assert name + "/" + "" == name + "/";
    Trailing(name, ".");
    assert name + "/" + "." == name + "/.";
  }

  lemma Trailing(name: string, part: string)
    requires Clean(name) && Skipped(part)
    ensures Safe(name + "/" + part) == Some(name)
  {
    var whole := name + "/" + part;
    assert name != "" by { assert Split(name)[0] in Split(name); }
    CleanIsSafe(name);
    SlashesOfClean(whole);
    SplitAppend(name, part);
    OneMoreSkipped(Split(name), part);
    JoinSplit(name);
  }

  lemma OneMoreSkipped(parts: seq<string>, part: string)
    requires Skipped(part) && forall p :: p in parts ==> !Skipped(p)
    ensures Kept(parts + [part]) == parts
  {
    assert (parts + [part])[..|parts|] == parts;
    KeptAll(parts);
  }

  // ----- claims

  datatype Kind = Dir | File

  type Claimed = map<string, Kind>

  /** b lies below a. */
  predicate Below(b: string, a: string) { |a| < |b| && b[..|a|] == a && b[|a|] == '/' }

  ghost predicate UnderFile(claimed: Claimed, name: string) {
    exists a :: a in claimed && claimed[a] == File && Below(name, a)
  }

  ghost predicate HasBelow(claimed: Claimed, name: string) {
    exists b :: b in claimed && Below(b, name)
  }

  datatype Verdict = Fresh | Again | Conflict

  /** What canAdd answers: add it, skip it, or an error. */
  ghost function Judge(claimed: Claimed, name: string, kind: Kind): Verdict {
    if UnderFile(claimed, name) then Conflict
    else if name in claimed then (if claimed[name] == Dir && kind == Dir then Again else Conflict)
    else if kind == File && HasBelow(claimed, name) then Conflict
    else Fresh
  }

  class Claims {
    var entries: Claimed

    constructor ()
      ensures entries == map[]
    {
      entries := map[];
    }

    /** Walk the parent directories of a clean name, nearest first. */
    method CheckParents(name: string) returns (clash: bool)
      ensures clash == UnderFile(entries, name)
    {
      var i := LastSlash(name);
      while i >= 0
        invariant -1 <= i < |name| && (i >= 0 ==> name[i] == '/')
        invariant forall a :: a in entries && entries[a] == File && Below(name, a) ==> |a| <= i
      {
        var parent := name[..i];
        if parent in entries && entries[parent] == File {
          assert Below(name, parent);
          return true;
        }
        i := LastSlash(parent);
      }
      return false;
    }

    /** Look for a claimed name below this one, in any order. */
    method CheckBelow(name: string) returns (clash: bool)
      ensures clash == HasBelow(entries, name)
    {
      var todo := entries.Keys;
      while todo != {}
        invariant todo <= entries.Keys
        invariant forall b :: b in entries && b !in todo ==> !Below(b, name)
        decreases |todo|
      {
        var b :| b in todo;
        if Below(b, name) { return true; }
        todo := todo - {b};
      }
      return false;
    }

    method CanAdd(name: string, kind: Kind) returns (v: Verdict)
      ensures v == Judge(entries, name, kind)
    {
      var under := CheckParents(name);
      if under { return Conflict; }
      if name in entries {
        return if entries[name] == Dir && kind == Dir then Again else Conflict;
      }
      if kind == File {
        var clash := CheckBelow(name);
        if clash { return Conflict; }
      }
      return Fresh;
    }

    method Add(name: string, kind: Kind)
      modifies this
      ensures entries == old(entries)[name := kind]
    {
      entries := entries[name := kind];
    }
  }

  /** The claimed names can be unpacked side by side: nothing lies below a file. */
  ghost predicate Tidy(claimed: Claimed) {
    forall a, b :: a in claimed && b in claimed && Below(b, a) ==> claimed[a] == Dir
  }

  /** canAdd says yes exactly when the name is new and the claims stay tidy with it; it skips directories it has. */
  lemma FreshIff(claimed: Claimed, name: string, kind: Kind)
    requires Tidy(claimed)
    ensures Judge(claimed, name, kind) == Fresh <==> name !in claimed && Tidy(claimed[name := kind])
    ensures Judge(claimed, name, kind) == Again <==> name in claimed && claimed[name] == Dir && kind == Dir
  {
    var after := claimed[name := kind];
    if name !in claimed && Tidy(after) {
      forall a | a in claimed && Below(name, a) ensures claimed[a] == Dir {
        assert a in after && name in after;
      }
      forall b | b in claimed && Below(b, name) ensures kind == Dir {
        assert b in after && name in after;
      }
    }
  }
}
