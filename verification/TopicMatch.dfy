/** The two-index topic matcher of core_mqtt.c against the level-by-level
    definition in section 4.7 of MQTT 3.1.1. */
module TopicMatch {
  import opened Options

  // ---- Section 4.7 -------------------------------------------------------------

  /** The levels of a topic name or filter: its parts between slashes. */
  function Levels(s: string): (l: seq<string>)
    ensures l != []
  {
    if s == "" then [""]
    else
      var l := Levels(s[1..]);
      if s[0] == '/' then [""] + l else [[s[0]] + l[0]] + l[1..]
  }

  /** `+` stands for any one level, a final `#` for the parent and any number of levels below. */
  predicate LevelsMatch(name: seq<string>, filter: seq<string>)
  {
    if filter == [] then name == []
    else if filter == ["#"] then true
    else name != [] && (filter[0] == "+" || filter[0] == name[0]) && LevelsMatch(name[1..], filter[1..])
  }

  predicate IsWild(c: char) { c == '+' || c == '#' }

  /** A name a PUBLISH may carry: not empty, no wildcards, no U+0000. */
  predicate ValidName(name: string)
  {
    name != "" && forall i :: 0 <= i < |name| ==> !IsWild(name[i]) && name[i] != '\0'
  }

  /** Wildcards fill a whole level, and `#` is last; `start` says a level begins here. */
  predicate ValidTail(filter: string, start: bool)
  {
    filter != "" ==>
      && (IsWild(filter[0]) ==> start && (|filter| == 1 || (filter[0] == '+' && filter[1] == '/')))
      && filter[0] != '\0'
      && ValidTail(filter[1..], filter[0] == '/')
  }

  predicate ValidFilter(filter: string) { filter != "" && ValidTail(filter, true) }

  /** Whether a PUBLISH to `name` matches `filter`, with the rule for `$` topics. */
  predicate TopicMatches(name: string, filter: string)
    requires name != "" && filter != ""
  {
    !(name[0] == '$' && IsWild(filter[0])) && LevelsMatch(Levels(name), Levels(filter))
  }

  // ---- What the matcher misses ---------------------------------------------------

  /** The matches the code does not report: the name runs out just after a level
      matched by `+`, and what is left of the filter would still match nothing. */
  predicate Missed(name: seq<string>, filter: seq<string>)
  {
    var k, m := |name|, |filter|;
    || (m >= 2 && k == m - 1 && filter[m - 2] == "+" && filter[m - 1] == "#")
    || (m >= 2 && k == m && name[k - 1] == "" && filter[m - 2] == "+" && (filter[m - 1] == "+" || filter[m - 1] == "#"))
    || (m >= 3 && k == m - 1 && name[k - 1] == "" && filter[m - 3] == "+" && filter[m - 2] == ""
        && filter[m - 1] == "#")
  }

  // ---- The code --------------------------------------------------------------------

  /** matchEndWildcardsSpecialCases, on the part of the filter from filterIndex on. */
  predicate EndSpecialCase(filter: string)
  {
    || (|filter| == 3 && filter[1] == '/' && filter[2] == '#')
    || (|filter| == 2 && filter[0] == '/' && IsWild(filter[1]))
  }

  /** Where the current level of a name ends. */
  function LevelEnd(name: string): (e: nat)
    ensures e <= |name|
    ensures forall i :: 0 <= i < e ==> name[i] != '/'
    ensures e < |name| ==> name[e] == '/'
  {
    if name == "" || name[0] == '/' then 0 else 1 + LevelEnd(name[1..])
  }

  lemma {:induction false} LevelEndIs(name: string, e: nat)
    requires e <= |name| && (forall i :: 0 <= i < e ==> name[i] != '/') && (e < |name| ==> name[e] == '/')
    ensures LevelEnd(name) == e
  {
    if e > 0 {
      LevelEndIs(name[1..], e - 1);
    }
  }

  /** The matching loop, on what is left of name and filter; `start` says the
      filter index is at a place a wildcard may stand. */
  predicate Run(name: string, filter: string, start: bool)
    decreases |filter|
  {
    if name == "" || filter == "" then name == "" && filter == ""
    else if name[0] == filter[0] then
      (|name| == 1 && EndSpecialCase(filter)) || Run(name[1..], filter[1..], filter[0] == '/')
    else if filter[0] == '+' && start then
      var e := LevelEnd(name);
      if e == |name| then Run("", filter[1..], false)
      else |filter| > 1 && filter[1] == '/' && Run(name[e + 1..], filter[2..], true)
    else filter == "#" && start
  }

  /** matchWildcards: moves both indices, or ends the matching with a verdict. */
  method MatchWildcards(name: string, filter: string, nameIndex: nat, filterIndex: nat)
    returns (stop: bool, match_: bool, nextName: nat, nextFilter: nat)
    requires nameIndex < |name| && filterIndex < |filter|
    requires name[nameIndex] != filter[filterIndex]
    ensures nameIndex <= nextName < |name| && filterIndex <= nextFilter < |filter|
    ensures var start := filterIndex == 0 || filter[filterIndex - 1] == '/';
            var whole := Run(name[nameIndex..], filter[filterIndex..], start);
            if stop then match_ == whole
            else !match_ && whole == Run(name[nextName + 1..], filter[nextFilter + 1..], filter[nextFilter] == '/')
  {
    hide LevelEnd;
    stop, match_, nextName, nextFilter := false, false, nameIndex, filterIndex;
    var location := filterIndex == 0 || filter[filterIndex - 1] == '/';
    if filter[filterIndex] == '+' && location {
      var nextLevelInName := false;
      while nextName < |name|
        invariant nameIndex <= nextName <= |name|
        invariant forall i :: nameIndex <= i < nextName ==> name[i] != '/'
        invariant !nextLevelInName
      {
        if name[nextName] == '/' {
          nextLevelInName := true;
          break;
        }
        nextName := nextName + 1;
      }
      ghost var n, f, e := name[nameIndex..], filter[filterIndex..], LevelEnd(name[nameIndex..]);
      LevelEndIs(n, nextName - nameIndex);
      var nextLevelInFilter := filterIndex < |filter| - 1 && filter[filterIndex + 1] == '/';
      if nextLevelInName && !nextLevelInFilter {
        stop := true;
      } else if nextLevelInName {
        nextFilter := filterIndex + 1;
        assert n[e + 1..] == name[nextName + 1..] && f[2..] == filter[nextFilter + 1..];
      } else {
        nextName := nextName - 1;
        assert name[nextName + 1..] == "" && f[1..] == filter[nextFilter + 1..];
      }
    } else if filter[filterIndex] == '#' && filterIndex == |filter| - 1 && location {
      stop, match_ := true, true;
      assert filter[filterIndex..] == "#";
    } else {
      stop := true;
    }
  }

  /** matchTopicFilter */
  method MatchTopicFilter(name: string, filter: string) returns (matchFound: bool)
    requires name != "" && filter != ""
    ensures matchFound == Run(name, filter, true)
  {
    matchFound := false;
    var stop := false;
    var nameIndex, filterIndex := 0, 0;
    assert name[0..] == name && filter[0..] == filter;
    while nameIndex < |name| && filterIndex < |filter|
      invariant 0 <= nameIndex <= |name| && 0 <= filterIndex <= |filter|
      invariant !matchFound && !stop
      invariant Run(name, filter, true) ==
                Run(name[nameIndex..], filter[filterIndex..], filterIndex == 0 || filter[filterIndex - 1] == '/')
      decreases |filter| - filterIndex
    {
      ghost var n, f := name[nameIndex..], filter[filterIndex..];
      assert n[1..] == name[nameIndex + 1..] && f[1..] == filter[filterIndex + 1..];
      if name[nameIndex] == filter[filterIndex] {
        if nameIndex == |name| - 1 {
          matchFound := EndSpecialCase(filter[filterIndex..]);
        }
        assert matchFound ==> Run(name, filter, true);
      } else {
        stop, matchFound, nameIndex, filterIndex := MatchWildcards(name, filter, nameIndex, filterIndex);
        assert stop ==> matchFound == Run(name, filter, true);
      }
      if matchFound || stop {
        return;
      }
      nameIndex, filterIndex := nameIndex + 1, filterIndex + 1;
    }
    matchFound := nameIndex == |name| && filterIndex == |filter|;
  }

  /** strncmp over n bytes: equal up to the first NUL. */
  predicate SameText(a: string, b: string)
    requires |a| == |b|
  {
    forall i :: 0 <= i < |a| ==> a[i] == b[i] || exists j :: 0 <= j < i && a[j] == b[j] == '\0'
  }

  /** MQTT_MatchTopic: None is MQTTBadParameter, for an empty name or filter. */
  method MatchTopic(name: string, filter: string) returns (r: Option<bool>)
    ensures r == None <==> name == "" || filter == ""
    ensures r.Some? && ValidName(name) && ValidFilter(filter) ==>
              (r.value <==> TopicMatches(name, filter) && !Missed(Levels(name), Levels(filter)))
  {
    if name == "" || filter == "" {
      return None;
    }
    var isMatch := false;
    if |name| == |filter| {
      isMatch := SameText(name, filter);
    }
    if !isMatch {
      var startsWild := filter[0] == '+' || filter[0] == '#';
      if !(name[0] == '$' && startsWild) {
        isMatch := MatchTopicFilter(name, filter);
      }
    }
    if ValidName(name) && ValidFilter(filter) {
      RunMeans(name, filter, true);
      if name == filter {
        SelfMatch(name);
      }
    }
    return Some(isMatch);
  }

  // ---- Levels ------------------------------------------------------------------------

  function Join(l: seq<string>): string
    requires l != []
  {
    if |l| == 1 then l[0] else l[0] + "/" + Join(l[1..])
  }

  lemma {:induction false} JoinLevels(s: string)
    ensures Join(Levels(s)) == s
  {
    if s != "" {
      JoinLevels(s[1..]);
      var l := Levels(s[1..]);
      if s[0] == '/' {
        assert ([""] + l)[1..] == l;
      } else {
        var m := [[s[0]] + l[0]] + l[1..];
        assert m[1..] == l[1..];
        assert Join(m) == [s[0]] + Join(l);
      }
    }
  }

  lemma {:induction false} LevelsInjective(a: string, b: string)
    requires Levels(a) == Levels(b)
    ensures a == b
  {
    JoinLevels(a);
    JoinLevels(b);
  }

  /** Levels after the first slash. */
  lemma {:induction false} LevelsAtEnd(s: string, e: nat)
    requires e == LevelEnd(s)
    ensures Levels(s) == [s[..e]] + if e == |s| then [] else Levels(s[e + 1..])
  {
    if s == "" {
    } else if s[0] == '/' {
      assert s[..0] == "";
    } else {
      var t := s[1..];
      LevelsAtEnd(t, e - 1);
      assert s[..e] == [s[0]] + t[..e - 1];
      assert e < |s| ==> s[e + 1..] == t[e..];
      assert Levels(t)[1..] == if e == |s| then [] else Levels(s[e + 1..]);
    }
  }

  /** A filter that goes on in the middle of a level continues with plain text. */
  lemma {:induction false} MidLevel(filter: string)
    requires ValidTail(filter, false)
    ensures Levels(filter)[0] != "+" && Levels(filter)[0] != "#"
  {
    if filter != "" && filter[0] != '/' {
      assert Levels(filter)[0][0] == filter[0];
    }
  }

  /** The short filters a name that has run out can still match. */
  lemma {:induction false} ShortLevels()
    ensures Levels("") == [""] && Levels("+") == ["+"] && Levels("#") == ["#"]
    ensures Levels("/#") == ["", "#"] && Levels("+/#") == ["+", "#"]
  {
    assert ""  == "+"[1..] == "#"[1..] && "/#"[1..] == "#" && "+/#"[1..] == "/#";
    assert ['+'] + "" == "+" && ['#'] + "" == "#";
    assert Levels("+") == ["+"] && Levels("#") == ["#"];
    assert Levels("/#") == [""] + ["#"];
    assert Levels("+/#") == [['+'] + ""] + ["#"];
  }

  /** What may follow once only an empty level is left of the name. */
  lemma {:induction false} EmptyLevelMatches(filter: string)
    ensures LevelsMatch([""], Levels(filter)) <==> filter in {"", "+", "#", "/#", "+/#"}
    ensures LevelsMatch([], Levels(filter)) <==> filter == "#"
  {
    ShortLevels();
    var l := Levels(filter);
    forall s | s in {"", "+", "#", "/#", "+/#"} && Levels(s) == l ensures s == filter {
      LevelsInjective(s, filter);
    }
    if |l| >= 2 {
      assert LevelsMatch([], l[1..]) <==> l[1..] == ["#"];
      assert l[1..] == ["#"] ==> l == [l[0], "#"];
    } else {
      assert l == [l[0]];
      assert LevelsMatch([], l[1..]);
    }
  }

  lemma {:induction false} PlainLevels(name: string)
    requires forall i :: 0 <= i < |name| ==> !IsWild(name[i])
    ensures forall i :: 0 <= i < |Levels(name)| ==> Levels(name)[i] != "+" && Levels(name)[i] != "#"
  {
    if name != "" {
      PlainLevels(name[1..]);
      assert name[0] != '/' ==> Levels(name)[0][0] == name[0];
    }
  }

  lemma {:induction false} SameLevelsMatch(l: seq<string>)
    ensures LevelsMatch(l, l)
  {
    if l != [] {
      SameLevelsMatch(l[1..]);
    }
  }

  /** An exact match is a match. */
  lemma {:induction false} SelfMatch(name: string)
    requires ValidName(name)
    ensures LevelsMatch(Levels(name), Levels(name)) && !Missed(Levels(name), Levels(name)) && !IsWild(name[0])
  {
    PlainLevels(name);
    SameLevelsMatch(Levels(name));
  }

  /** What the matcher is meant to decide. */
  predicate Reported(name: string, filter: string)
  {
    LevelsMatch(Levels(name), Levels(filter)) && !Missed(Levels(name), Levels(filter))
  }

  /** Missed looks only at the end: another first level changes nothing unless it is `+`. */
  lemma {:induction false} MissedHead(x: string, x': string, y: string, y': string, n: seq<string>, f: seq<string>)
    requires y != "+" && y' != "+"
    ensures Missed([x] + n, [y] + f) <==> Missed([x'] + n, [y'] + f)
  {
  }

  lemma {:induction false} MissedTail(x: string, y: string, n: seq<string>, f: seq<string>)
    requires n != [] && f != [] && (y != "+" || n != [""])
    ensures Missed([x] + n, [y] + f) <==> Missed(n, f)
  {
    assert n == [n[0]] + n[1..];
  }

  lemma {:induction false} MissedWhenOut(x: string, f: seq<string>)
    ensures f in {["+"], ["#"], ["", "#"], ["+", "#"]} ==> Missed([x, ""], ["+"] + f)
    ensures !Missed([x, ""], ["+", ""])
  {
  }

  /** A common character inside a level can be dropped. */
  lemma {:induction false} DropText(name: string, filter: string)
    requires |name| > 1 && filter != "" && name[0] == filter[0] != '/' && !IsWild(name[0])
    requires ValidTail(filter[1..], false)
    ensures Reported(name, filter) <==> Reported(name[1..], filter[1..])
  {
    hide Missed;
    var n, f := Levels(name[1..]), Levels(filter[1..]);
    var c := [name[0]];
    MidLevel(filter[1..]);
    assert Levels(name) == [c + n[0]] + n[1..] && Levels(filter) == [c + f[0]] + f[1..];
    assert (c + f[0])[0] == name[0];
    assert (c + n[0])[1..] == n[0] && (c + f[0])[1..] == f[0];
    assert Levels(name)[1..] == n[1..] && Levels(filter)[1..] == f[1..];
    assert n == [n[0]] + n[1..] && f == [f[0]] + f[1..];
    MissedHead(c + n[0], n[0], c + f[0], f[0], n[1..], f[1..]);
  }

  /** A common slash can be dropped. */
  lemma {:induction false} DropSlash(name: string, filter: string)
    requires |name| > 1 && filter != "" && name[0] == filter[0] == '/'
    ensures Reported(name, filter) <==> Reported(name[1..], filter[1..])
  {
    var n, f := Levels(name[1..]), Levels(filter[1..]);
    assert Levels(name) == [""] + n && Levels(filter) == [""] + f;
    assert Levels(name)[1..] == n && Levels(filter)[1..] == f;
  }

  /** The last character of the name is matched by the same character. */
  lemma {:induction false} LastCharacter(name: string, filter: string)
    requires |name| == 1 && !IsWild(name[0]) && filter != "" && filter[0] == name[0]
    requires ValidTail(filter[1..], name[0] == '/')
    ensures Reported(name, filter) <==> EndSpecialCase(filter) || filter[1..] == ""
  {
    var rest := filter[1..];
    var f := Levels(rest);
    ShortLevels();
    EmptyLevelMatches(rest);
    assert name[1..] == "" && filter == [name[0]] + rest;
    if name[0] == '/' {
      assert Levels(name) == ["", ""] && Levels(filter) == [""] + f;
      assert Levels(name)[1..] == [""] && Levels(filter)[1..] == f;
    } else {
      MidLevel(rest);
      var c := [name[0]];
      assert c + "" == c;
      assert Levels(name) == [c] && Levels(filter) == [c + f[0]] + f[1..];
      assert (c + f[0])[0] == name[0] && (c + f[0])[1..] == f[0];
      assert Levels(name)[1..] == [] && Levels(filter)[1..] == f[1..];
      assert LevelsMatch(Levels(name), Levels(filter)) <==> f[0] == "" && LevelsMatch([], f[1..]);
      assert LevelsMatch([""], f) <==> f[0] == "" && LevelsMatch([], f[1..]);
      assert |rest| == 2 && rest[0] == '/' && rest[1] == '#' ==> rest == "/#";
    }
  }

  /** `+` takes the last level of the name. */
  lemma {:induction false} PlusTakesLast(name: string, filter: string)
    requires name != "" && LevelEnd(name) == |name| && filter != "" && filter[0] == '+' && ValidTail(filter, true)
    ensures Reported(name, filter) <==> filter == "+"
  {
    ShortLevels();
    LevelsAtEnd(name, |name|);
    assert name[..|name|] == name && Levels(name) == [name];
    if |filter| > 1 {
      var f := Levels(filter[2..]);
      assert filter[1..][1..] == filter[2..];
      assert Levels(filter[1..]) == [""] + f && ['+'] + "" == "+";
      assert Levels(filter) == ["+"] + f;
      assert Levels(name)[1..] == [] && Levels(filter)[1..] == f;
      EmptyLevelMatches(filter[2..]);
      assert LevelsMatch([], f) ==> Missed(Levels(name), Levels(filter));
    } else {
      assert filter == "+" && Levels(name)[1..] == [] && ["+"][1..] == [];
      assert LevelsMatch([], []);
    }
  }

  /** `+` takes a level that is followed by another. */
  lemma {:induction false} PlusTakesLevel(name: string, filter: string, e: nat)
    requires e == LevelEnd(name) < |name| && filter != "" && filter[0] == '+' && ValidTail(filter, true)
    ensures |filter| == 1 ==> !Reported(name, filter)
    ensures |filter| > 1 ==> filter[1] == '/' && ValidTail(filter[2..], true)
    ensures |filter| > 1 && e + 1 < |name| ==> (Reported(name, filter) <==> Reported(name[e + 1..], filter[2..]))
    ensures |filter| > 1 && e + 1 == |name| ==> (Reported(name, filter) <==> filter[2..] == "")
  {
    hide Missed;
    ShortLevels();
    LevelsAtEnd(name, e);
    var n := Levels(name[e + 1..]);
    assert Levels(name)[1..] == n;
    if |filter| == 1 {
      assert filter == "+" && ["+"][1..] == [] && n != [];
      assert !LevelsMatch(n, []);
    } else {
      var f := Levels(filter[2..]);
      assert filter[1..][1..] == filter[2..];
      assert Levels(filter[1..]) == [""] + f && ['+'] + "" == "+";
      assert Levels(filter) == ["+"] + f && Levels(filter)[1..] == f;
      assert LevelsMatch(Levels(name), Levels(filter)) <==> LevelsMatch(n, f);
      if e + 1 < |name| {
        if n == [""] {
          LevelsInjective(name[e + 1..], "");
        }
        MissedTail(name[..e], "+", n, f);
      } else {
        EmptyLevelMatches(filter[2..]);
        MissedWhenOut(name[..e], f);
        assert name[e + 1..] == "" && Levels(name) == [name[..e], ""] && ["+"] + [""] == ["+", ""];
      }
    }
  }

  /** A plain character that differs ends the matching. */
  lemma {:induction false} DifferentText(name: string, filter: string)
    requires name != "" && filter != "" && name[0] != filter[0] && !IsWild(filter[0])
    ensures !LevelsMatch(Levels(name), Levels(filter))
  {
    var n, f := Levels(name), Levels(filter);
    assert name[0] != '/' ==> n[0] != "" && n[0][0] == name[0];
    assert filter[0] != '/' ==> f[0] != "" && f[0][0] == filter[0];
  }

  /** The matcher reports exactly the matches of section 4.7 that are not in the
      missed family. */
  lemma {:induction false} RunMeans(name: string, filter: string, start: bool)
    requires ValidName(name) && ValidTail(filter, start)
    ensures Run(name, filter, start) <==> Reported(name, filter)
    decreases |filter|
  {
    hide Levels, LevelsMatch, Missed, Reported;
    ShortLevels();
    if filter == "" {
      EmptyFilter(name);
    } else if name[0] == filter[0] {
      if |name| == 1 {
        LastCharacter(name, filter);
      } else {
        RunMeans(name[1..], filter[1..], filter[0] == '/');
        if name[0] == '/' {
          DropSlash(name, filter);
        } else {
          DropText(name, filter);
        }
      }
    } else if filter[0] == '+' {
      var e := LevelEnd(name);
      if e == |name| {
        PlusTakesLast(name, filter);
      } else {
        PlusTakesLevel(name, filter, e);
        if |filter| > 1 && e + 1 < |name| {
          RunMeans(name[e + 1..], filter[2..], true);
        }
      }
    } else if filter[0] == '#' {
      HashMatches(name);
      assert filter == "#";
    } else {
      NotReported(name, filter);
    }
  }

  lemma {:induction false} EmptyFilter(name: string)
    requires name != ""
    ensures !Reported(name, "")
  {
    ShortLevels();
    if Levels(name) == [""] {
      LevelsInjective(name, "");
    }
    var n := Levels(name);
    assert [""][1..] == [] && (n[1..] == [] ==> n == [n[0]]);
    assert LevelsMatch(n[1..], []) <==> n[1..] == [];
  }

  lemma {:induction false} HashMatches(name: string)
    ensures Reported(name, "#")
  {
    ShortLevels();
  }

  lemma {:induction false} NotReported(name: string, filter: string)
    requires name != "" && filter != "" && name[0] != filter[0] && !IsWild(filter[0])
    ensures !Reported(name, filter)
  {
    DifferentText(name, filter);
  }

  /** Witnesses that each part of the missed family is needed: matches by
      section 4.7 that the loop does not report. */
  lemma {:induction false} MissedWitnesses()
    ensures TopicMatches("a", "+/#") && !Run("a", "+/#", true)
    ensures TopicMatches("a/", "+/+") && !Run("a/", "+/+", true)
    ensures TopicMatches("a/", "+//#") && !Run("a/", "+//#", true)
  {
    ShortLevels();
    assert "a"[1..] == "" && "a/"[1..] == "/" && "/"[1..] == "";
    assert ['a'] + "" == "a" && Levels("a") == ["a"];
    assert Levels("/") == ["", ""] && Levels("a/") == ["a", ""];
    assert "+/+"[1..] == "/+" && "/+"[1..] == "+" && ['+'] + "" == "+";
    assert Levels("/+") == ["", "+"] && Levels("+/+") == ["+", "+"];
    assert "+//#"[1..] == "//#" && "//#"[1..] == "/#";
    assert Levels("//#") == ["", "", "#"] && Levels("+//#") == ["+", "", "#"];
    assert ["a"][1..] == [] && ["+", "#"][1..] == ["#"];
    assert ["a", ""][1..] == [""] && [""][1..] == [] && ["+", "+"][1..] == ["+"] && ["+"][1..] == [];
    assert ["+", "", "#"][1..] == ["", "#"] && ["", "#"][1..] == ["#"];
    LevelEndIs("a", 1);
    LevelEndIs("a/", 1);
    assert "a/"[2..] == "" && "+/+"[2..] == "+" && "+//#"[2..] == "/#" && "+/#"[1..] == "/#";
  }
}
