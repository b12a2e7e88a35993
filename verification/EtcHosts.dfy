/**
 The hosts-file script of `pkg/installer/etchost/etchosts.go` and the configuration it appends.

 The script copies /etc/hosts without its own marked lines, appends the configuration line by
 line with the marker, and puts the result in place.  `sed` writes a last line that lacks its
 line break without one, as GNU sed does; bash's `read` skips such a line.
 */
module EtcHosts {

  const NEWLINE := '\n'

  // ---------------------------------------------------------------- text as lines

  function IndexOfNewline(s: string): (i: nat)
    ensures i <= |s|
    ensures i < |s| ==> s[i] == NEWLINE
    ensures forall j :: 0 <= j < i ==> s[j] != NEWLINE
  {
    if s == "" || s[0] == NEWLINE then 0 else 1 + IndexOfNewline(s[1..])
  }

  /** The complete lines of a text, without their line breaks. */
  function Lines(s: string): seq<string>
    decreases |s|
  {
    var i := IndexOfNewline(s);
    if i == |s| then [] else [s[..i]] + Lines(s[i + 1..])
  }

  /** What follows the last line break. */
  function Tail(s: string): string
    decreases |s|
  {
    var i := IndexOfNewline(s);
    if i == |s| then s else Tail(s[i + 1..])
  }

  function Unlines(ls: seq<string>): string {
    if ls == [] then "" else ls[0] + [NEWLINE] + Unlines(ls[1..])
  }

  predicate OneLine(s: string) {
    forall i :: 0 <= i < |s| ==> s[i] != NEWLINE
  }

  predicate AllOneLine(ls: seq<string>) {
    forall i :: 0 <= i < |ls| ==> OneLine(ls[i])
  }

  lemma {:induction false} NewlineAfter(l: string, s: string)
    requires OneLine(l)
    ensures IndexOfNewline(l + [NEWLINE] + s) == |l|
  {
    var t := l + [NEWLINE] + s;
    assert t[|l|] == NEWLINE;
    assert forall j :: 0 <= j < |l| ==> t[j] == l[j];
  }

  lemma {:induction false} FirstLine(l: string, s: string)
    requires OneLine(l)
    ensures Lines(l + [NEWLINE] + s) == [l] + Lines(s) && Tail(l + [NEWLINE] + s) == Tail(s)
  {
    var t := l + [NEWLINE] + s;
    NewlineAfter(l, s);
    assert t[..|l|] == l && t[|l| + 1..] == s;
  }

  lemma {:induction false} Associative<T>(a: seq<T>, b: seq<T>, c: seq<T>)
    ensures a + b + c == a + (b + c)
  {
  }

  lemma {:induction false} UnlinesCons(l: string, ls: seq<string>)
    ensures Unlines([l] + ls) == l + [NEWLINE] + Unlines(ls)
  {
    assert ([l] + ls)[1..] == ls;
  }

  lemma {:induction false} LinesOfUnlines(ls: seq<string>, s: string)
    requires AllOneLine(ls)
    ensures Lines(Unlines(ls) + s) == ls + Lines(s) && Tail(Unlines(ls) + s) == Tail(s)
  {
    if ls == [] {
      assert Unlines(ls) + s == s;
      assert ls + Lines(s) == Lines(s);
    } else {
      var first, rest := ls[0], ls[1..];
      var below := Unlines(rest) + s;
      assert AllOneLine(rest) by { assert forall i :: 0 <= i < |rest| ==> rest[i] == ls[i + 1]; }
      LinesOfUnlines(rest, s);
      assert ls == [first] + rest;
      assert Unlines(ls) + s == first + [NEWLINE] + below by {
        UnlinesCons(first, rest);
        Associative(first + [NEWLINE], Unlines(rest), s);
      }
      FirstLine(first, below);
      Associative([first], rest, Lines(s));
    }
  }

  lemma {:induction false} OneLineHasNoLines(t: string)
    requires OneLine(t)
    ensures Lines(t) == [] && Tail(t) == t
  {
  }

  lemma {:induction false} LinesAreOneLine(s: string)
    ensures AllOneLine(Lines(s)) && OneLine(Tail(s))
    decreases |s|
  {
    if IndexOfNewline(s) < |s| {
      LinesAreOneLine(s[IndexOfNewline(s) + 1..]);
    }
  }

  // ---------------------------------------------------------------- marking

  predicate At(s: string, p: string, i: nat) {
    i + |p| <= |s| && s[i..i + |p|] == p
  }

  /** The line holds the marker comment somewhere. */
  predicate Marked(p: string, line: string) {
    exists i: nat | i <= |line| :: At(line, p, i)
  }

  function Mark(p: string, line: string): string {
    line + " " + p
  }

  function MarkAll(p: string, ls: seq<string>): (r: seq<string>)
    ensures |r| == |ls|
  {
    if ls == [] then [] else [Mark(p, ls[0])] + MarkAll(p, ls[1..])
  }

  function Unmarked(p: string, ls: seq<string>): seq<string> {
    if ls == [] then []
    else if Marked(p, ls[0]) then Unmarked(p, ls[1..])
    else [ls[0]] + Unmarked(p, ls[1..])
  }

  function OnlyMarked(p: string, ls: seq<string>): seq<string> {
    if ls == [] then []
    else if Marked(p, ls[0]) then [ls[0]] + OnlyMarked(p, ls[1..])
    else OnlyMarked(p, ls[1..])
  }

  lemma {:induction false} PrefixedMarkIsMarked(p: string, t: string, line: string)
    ensures Marked(p, t + Mark(p, line))
  {
    var s, i: nat := t + Mark(p, line), |t| + |line| + 1;
    assert s[i..i + |p|] == p;
    assert At(s, p, i);
  }

  lemma {:induction false} MarkIsMarked(p: string, line: string)
    ensures Marked(p, Mark(p, line))
  {
    PrefixedMarkIsMarked(p, "", line);
    assert "" + Mark(p, line) == Mark(p, line);
  }

  lemma {:induction false} UnmarkedAppend(p: string, a: seq<string>, b: seq<string>)
    ensures Unmarked(p, a + b) == Unmarked(p, a) + Unmarked(p, b)
  {
    if a == [] {
      assert a + b == b;
    } else {
      assert (a + b)[0] == a[0] && (a + b)[1..] == a[1..] + b;
      UnmarkedAppend(p, a[1..], b);
      if !Marked(p, a[0]) {
        assert [a[0]] + (Unmarked(p, a[1..]) + Unmarked(p, b)) == [a[0]] + Unmarked(p, a[1..]) + Unmarked(p, b);
      }
    }
  }

  lemma {:induction false} OnlyMarkedAppend(p: string, a: seq<string>, b: seq<string>)
    ensures OnlyMarked(p, a + b) == OnlyMarked(p, a) + OnlyMarked(p, b)
  {
    if a == [] {
      assert a + b == b;
    } else {
      assert (a + b)[0] == a[0] && (a + b)[1..] == a[1..] + b;
      OnlyMarkedAppend(p, a[1..], b);
      if Marked(p, a[0]) {
        assert [a[0]] + (OnlyMarked(p, a[1..]) + OnlyMarked(p, b)) == [a[0]] + OnlyMarked(p, a[1..]) + OnlyMarked(p, b);
      }
    }
  }

  lemma {:induction false} FilterUnmarked(p: string, ls: seq<string>)
    ensures Unmarked(p, Unmarked(p, ls)) == Unmarked(p, ls) && OnlyMarked(p, Unmarked(p, ls)) == []
    ensures AllOneLine(ls) ==> AllOneLine(Unmarked(p, ls))
  {
    if ls != [] {
      FilterUnmarked(p, ls[1..]);
      assert AllOneLine(ls) ==> AllOneLine(ls[1..]) by {
        assert forall i :: 0 <= i < |ls[1..]| ==> ls[1..][i] == ls[i + 1];
      }
    }
  }

  lemma {:induction false} FilterMarks(p: string, ls: seq<string>)
    ensures Unmarked(p, MarkAll(p, ls)) == [] && OnlyMarked(p, MarkAll(p, ls)) == MarkAll(p, ls)
  {
    if ls != [] {
      MarkIsMarked(p, ls[0]);
      FilterMarks(p, ls[1..]);
    }
  }

  lemma {:induction false} MarksAreOneLine(p: string, ls: seq<string>)
    requires OneLine(p) && AllOneLine(ls)
    ensures AllOneLine(MarkAll(p, ls))
  {
    if ls != [] {
      assert AllOneLine(ls[1..]) by { assert forall i :: 0 <= i < |ls[1..]| ==> ls[1..][i] == ls[i + 1]; }
      MarksAreOneLine(p, ls[1..]);
      assert OneLine(Mark(p, ls[0]));
    }
  }

  // ---------------------------------------------------------------- the script

  const SCRIPT_MARKER := "openshift-aro-etchosts-resolver"

  /** What `sed` looks for.  The theorems hold for any pattern p on one line. */
  const MARKER_PATTERN := "# " + SCRIPT_MARKER

  lemma {:induction false} MarkerIsOneLine()
    ensures OneLine(MARKER_PATTERN)
  {
  }

  /** `sed "/# marker/d; w"`: an incomplete last line is written without a line break. */
  function Kept(p: string, hosts: string): string {
    Unlines(Unmarked(p, Lines(hosts))) + (if Marked(p, Tail(hosts)) then "" else Tail(hosts))
  }

  function Rewrite(p: string, config: string, hosts: string): string {
    Kept(p, hosts) + Unlines(MarkAll(p, Lines(config)))
  }

  method RunScript(p: string, config: string, hosts: string) returns (hosts': string)
    ensures hosts' == Rewrite(p, config, hosts)
  {
    var temp := AppendMarked(p, Kept(p, hosts), config);
    // `cmp temp hosts || cp temp hosts`: the same contents either way.
    if temp == hosts {
      hosts' := hosts;
    } else {
      hosts' := temp;
    }
  }

  /** What the loop has written when all the unread lines are appended too. */
  function Appended(p: string, temp: string, unread: string): string {
    temp + Unlines(MarkAll(p, Lines(unread)))
  }

  /** `while read -r line; do echo "$line # marker" >> temp; done`. */
  method AppendMarked(p: string, temp: string, config: string) returns (temp': string)
    ensures temp' == Appended(p, temp, config)
  {
    temp' := temp;
    var unread := config;
    var i := IndexOfNewline(unread);
    while i < |unread|
      invariant i == IndexOfNewline(unread)
      invariant Appended(p, temp', unread) == Appended(p, temp, config)
      decreases |unread|
    {
      MarkNextLine(p, temp', unread);
      temp' := temp' + (Mark(p, unread[..i]) + [NEWLINE]);
      unread := unread[i + 1..];
      i := IndexOfNewline(unread);
    }
    NoLineLeft(p, temp', unread);
  }

  lemma {:induction false} NoLineLeft(p: string, temp: string, unread: string)
    requires IndexOfNewline(unread) == |unread|
    ensures Appended(p, temp, unread) == temp
  {
  }

  lemma {:induction false} MarkNextLine(p: string, temp: string, unread: string)
    requires IndexOfNewline(unread) < |unread|
    ensures Appended(p, temp, unread) == Appended(p, temp + (Mark(p, unread[..IndexOfNewline(unread)]) + [NEWLINE]),
                                                  unread[IndexOfNewline(unread) + 1..])
  {
    var line, below := unread[..IndexOfNewline(unread)], Lines(unread[IndexOfNewline(unread) + 1..]);
    assert Lines(unread) == [line] + below;
    MarkAllCons(p, line, below);
    UnlinesCons(Mark(p, line), MarkAll(p, below));
    Associative(temp, Mark(p, line) + [NEWLINE], Unlines(MarkAll(p, below)));
  }

  lemma {:induction false} MarkAllCons(p: string, l: string, ls: seq<string>)
    ensures MarkAll(p, [l] + ls) == [Mark(p, l)] + MarkAll(p, ls)
  {
    assert ([l] + ls)[1..] == ls;
  }

  // ---------------------------------------------------------------- what the script achieves

  /** The last line is complete, or it is the script's own and goes. */
  predicate CleanEnd(p: string, hosts: string) {
    Tail(hosts) == "" || Marked(p, Tail(hosts))
  }

  lemma {:induction false} RewrittenLines(p: string, config: string, hosts: string)
    requires OneLine(p) && CleanEnd(p, hosts)
    ensures Lines(Rewrite(p, config, hosts)) == Unmarked(p, Lines(hosts)) + MarkAll(p, Lines(config))
    ensures Tail(Rewrite(p, config, hosts)) == ""
  {
    var kept, marks := Unmarked(p, Lines(hosts)), MarkAll(p, Lines(config));
    LinesAreOneLine(hosts);
    LinesAreOneLine(config);
    FilterUnmarked(p, Lines(hosts));
    MarksAreOneLine(p, Lines(config));
    assert Kept(p, hosts) == Unlines(kept);
    LinesOfUnlines(kept, Unlines(marks));
    LinesOfUnlines(marks, "");
    OneLineHasNoLines("");
    assert Unlines(marks) + "" == Unlines(marks);
  }

  /** Every foreign line stays, in order; the script's lines are exactly the configuration's. */
  lemma {:induction false} ForeignLinesKeptOwnLinesReplaced(p: string, config: string, hosts: string)
    requires OneLine(p) && CleanEnd(p, hosts)
    ensures Unmarked(p, Lines(Rewrite(p, config, hosts))) == Unmarked(p, Lines(hosts))
    ensures OnlyMarked(p, Lines(Rewrite(p, config, hosts))) == MarkAll(p, Lines(config))
  {
    var kept, marks := Unmarked(p, Lines(hosts)), MarkAll(p, Lines(config));
    RewrittenLines(p, config, hosts);
    UnmarkedAppend(p, kept, marks);
    OnlyMarkedAppend(p, kept, marks);
    FilterUnmarked(p, Lines(hosts));
    FilterMarks(p, Lines(config));
  }

  lemma {:induction false} CleanRewriteSupersedes(p: string, first: string, second: string, hosts: string)
    requires OneLine(p) && CleanEnd(p, hosts)
    ensures Rewrite(p, second, Rewrite(p, first, hosts)) == Rewrite(p, second, hosts)
  {
    RewrittenLines(p, first, hosts);
    ForeignLinesKeptOwnLinesReplaced(p, first, hosts);
    assert Kept(p, Rewrite(p, first, hosts)) == Kept(p, hosts);
  }

  /** An incomplete foreign last line is glued to the first configuration line. */
  lemma {:induction false} GluedLines(p: string, config: string, hosts: string)
    requires OneLine(p) && !CleanEnd(p, hosts) && Lines(config) != []
    ensures var marks := MarkAll(p, Lines(config));
            Lines(Rewrite(p, config, hosts)) == Unmarked(p, Lines(hosts)) + ([Tail(hosts) + marks[0]] + marks[1..])
    ensures Tail(Rewrite(p, config, hosts)) == ""
  {
    var kept, marks, t := Unmarked(p, Lines(hosts)), MarkAll(p, Lines(config)), Tail(hosts);
    LinesAreOneLine(hosts);
    LinesAreOneLine(config);
    FilterUnmarked(p, Lines(hosts));
    MarksAreOneLine(p, Lines(config));
    var glued := [t + marks[0]] + marks[1..];
    assert OneLine(t + marks[0]);
    assert AllOneLine(glued);
    assert glued[1..] == marks[1..];
    assert Unlines(glued) == t + Unlines(marks) by {
      assert t + marks[0] + [NEWLINE] + Unlines(marks[1..]) == t + (marks[0] + [NEWLINE] + Unlines(marks[1..]));
    }
    assert Rewrite(p, config, hosts) == Unlines(kept) + Unlines(glued) by {
      assert Unlines(kept) + t + Unlines(marks) == Unlines(kept) + (t + Unlines(marks));
    }
    LinesOfUnlines(kept, Unlines(glued));
    LinesOfUnlines(glued, "");
    OneLineHasNoLines("");
    assert Unlines(glued) + "" == Unlines(glued);
  }

  /** The next run takes the glued line for one of the script's own: it leaves what it would have
      left had the incomplete line never been there. */
  lemma {:induction false} GluedLineIsLost(p: string, first: string, second: string, hosts: string)
    requires OneLine(p) && !CleanEnd(p, hosts) && Lines(first) != []
    ensures Rewrite(p, second, Rewrite(p, first, hosts)) == Rewrite(p, second, Unlines(Unmarked(p, Lines(hosts))))
    ensures Rewrite(p, second, Rewrite(p, first, hosts)) != Rewrite(p, second, hosts)
  {
    var kept := Unmarked(p, Lines(hosts));
    GluedLines(p, first, hosts);
    GluedAreMarked(p, Tail(hosts), Lines(first));
    UnmarkedAppend(p, kept, [Tail(hosts) + MarkAll(p, Lines(first))[0]] + MarkAll(p, Lines(first))[1..]);
    FilterUnmarked(p, Lines(hosts));
    assert Unmarked(p, Lines(Rewrite(p, first, hosts))) == kept by { assert kept + [] == kept; }
    assert |Kept(p, Rewrite(p, first, hosts))| == |Unlines(kept)| < |Kept(p, hosts)|;
    KeptOfKept(p, hosts);
  }

  lemma {:induction false} GluedAreMarked(p: string, t: string, ls: seq<string>)
    requires ls != []
    ensures Unmarked(p, [t + MarkAll(p, ls)[0]] + MarkAll(p, ls)[1..]) == []
  {
    var marks := MarkAll(p, ls);
    FilterMarks(p, ls[1..]);
    PrefixedMarkIsMarked(p, t, ls[0]);
    assert marks[1..] == MarkAll(p, ls[1..]);
    assert ([t + marks[0]] + marks[1..])[1..] == marks[1..];
  }

  lemma {:induction false} KeptOfKept(p: string, hosts: string)
    ensures Kept(p, Unlines(Unmarked(p, Lines(hosts)))) == Unlines(Unmarked(p, Lines(hosts)))
  {
    var kept := Unmarked(p, Lines(hosts));
    LinesAreOneLine(hosts);
    FilterUnmarked(p, Lines(hosts));
    LinesOfUnlines(kept, "");
    OneLineHasNoLines("");
    assert Unlines(kept) + "" == Unlines(kept) && kept + [] == kept;
  }

  /** Exactly when a later run makes an earlier one irrelevant, in particular when running twice
      is running once: when the hosts file ends in a line break (or in a line of the script's
      own), or the earlier configuration had no line.  Otherwise the file's last line is lost. */
  lemma {:induction false} LaterRunSupersedesIff(p: string, first: string, second: string, hosts: string)
    requires OneLine(p)
    ensures Rewrite(p, second, Rewrite(p, first, hosts)) == Rewrite(p, second, hosts)
       <==> CleanEnd(p, hosts) || Lines(first) == []
  {
    if CleanEnd(p, hosts) {
      CleanRewriteSupersedes(p, first, second, hosts);
    } else if Lines(first) == [] {
      var kept, t := Unmarked(p, Lines(hosts)), Tail(hosts);
      LinesAreOneLine(hosts);
      FilterUnmarked(p, Lines(hosts));
      assert Rewrite(p, first, hosts) == Unlines(kept) + t by {
        assert Unlines(kept) + t + "" == Unlines(kept) + t;
      }
      LinesOfUnlines(kept, t);
      OneLineHasNoLines(t);
      assert kept + [] == kept;
    } else {
      GluedLineIsLost(p, first, second, hosts);
    }
  }

  /** A file that is nothing but an incomplete foreign line loses it in two runs. */
  lemma {:induction false} IncompleteLineGoes(p: string, config: string, hosts: string)
    requires OneLine(p) && OneLine(hosts) && hosts != "" && !Marked(p, hosts) && Lines(config) != []
    ensures Rewrite(p, config, hosts) == hosts + Unlines(MarkAll(p, Lines(config)))
    ensures Rewrite(p, config, Rewrite(p, config, hosts)) == Unlines(MarkAll(p, Lines(config)))
  {
    var marks := Unlines(MarkAll(p, Lines(config)));
    OneLineHasNoLines(hosts);
    OneLineHasNoLines("");
    assert Kept(p, hosts) == hosts by { assert "" + hosts == hosts; }
    assert Kept(p, "") == "";
    assert "" + marks == marks;
    GluedLineIsLost(p, config, config, hosts);
  }

  lemma {:induction false} ShortIsUnmarked(p: string, line: string)
    requires |line| < |p|
    ensures !Marked(p, line)
  {
  }

  /** For instance this one, with the script's own marker. */
  lemma {:induction false} IncompleteLineGoesInTwoRuns(config: string)
    requires Lines(config) != []
    ensures var marks := Unlines(MarkAll(MARKER_PATTERN, Lines(config)));
            && Rewrite(MARKER_PATTERN, config, "10.0.0.1 db") == "10.0.0.1 db" + marks
            && Rewrite(MARKER_PATTERN, config, Rewrite(MARKER_PATTERN, config, "10.0.0.1 db")) == marks
  {
    MarkerIsOneLine();
    ShortIsUnmarked(MARKER_PATTERN, "10.0.0.1 db");
    IncompleteLineGoes(MARKER_PATTERN, config, "10.0.0.1 db");
  }

  // ---------------------------------------------------------------- the configuration

  function JoinWithSpaces(ds: seq<string>): string {
    if ds == [] then ""
    else if |ds| == 1 then ds[0]
    else ds[0] + " " + JoinWithSpaces(ds[1..])
  }

  function ApiLine(clusterDomain: string, apiIntIP: string): string {
    apiIntIP + "\tapi." + clusterDomain + " api-int." + clusterDomain
  }

  function GatewayLine(gatewayDomains: seq<string>, gatewayIP: string): string {
    gatewayIP + "\t" + JoinWithSpaces(gatewayDomains)
  }

  function AroConf(clusterDomain: string, apiIntIP: string, gatewayDomains: seq<string>, gatewayIP: string): string {
    ApiLine(clusterDomain, apiIntIP) + [NEWLINE] + (GatewayLine(gatewayDomains, gatewayIP) + [NEWLINE])
  }

  lemma {:induction false} JoinIsOneLine(ds: seq<string>)
    requires AllOneLine(ds)
    ensures OneLine(JoinWithSpaces(ds))
  {
    if |ds| > 1 {
      assert AllOneLine(ds[1..]) by { assert forall i :: 0 <= i < |ds[1..]| ==> ds[1..][i] == ds[i + 1]; }
      JoinIsOneLine(ds[1..]);
    }
  }

  /** For names and addresses without line breaks, the hosts file ends up with the api line and the
      gateway line of this very cluster as its only marked lines. */
  lemma {:induction false} HostsCarryTheCluster(p: string, clusterDomain: string, apiIntIP: string,
                                                gatewayDomains: seq<string>, gatewayIP: string, hosts: string)
    requires OneLine(p) && CleanEnd(p, hosts)
    requires OneLine(clusterDomain) && OneLine(apiIntIP) && OneLine(gatewayIP) && AllOneLine(gatewayDomains)
    ensures OnlyMarked(p, Lines(Rewrite(p, AroConf(clusterDomain, apiIntIP, gatewayDomains, gatewayIP), hosts)))
         == [Mark(p, ApiLine(clusterDomain, apiIntIP)), Mark(p, GatewayLine(gatewayDomains, gatewayIP))]
  {
    var api, gateway := ApiLine(clusterDomain, apiIntIP), GatewayLine(gatewayDomains, gatewayIP);
    var config := AroConf(clusterDomain, apiIntIP, gatewayDomains, gatewayIP);
    JoinIsOneLine(gatewayDomains);
    FirstLine(api, gateway + [NEWLINE]);
    FirstLine(gateway, "");
    assert gateway + [NEWLINE] + "" == gateway + [NEWLINE];
    OneLineHasNoLines("");
    assert Lines(config) == [api, gateway];
    ForeignLinesKeptOwnLinesReplaced(p, config, hosts);
    assert [api, gateway][1..] == [gateway] && [gateway][1..] == [];
  }

  // ---------------------------------------------------------------- what a line of the hosts file means

  predicate Blank(c: char) {
    c == ' ' || c == '\t'
  }

  /** A comment runs from the first hash to the end of the line. */
  function BeforeComment(line: string): string {
    if line == "" || line[0] == '#' then "" else [line[0]] + BeforeComment(line[1..])
  }

  function WordEnd(s: string): (i: nat)
    ensures i <= |s| && (i < |s| ==> Blank(s[i]))
    ensures forall j :: 0 <= j < i ==> !Blank(s[j])
    ensures s != "" && !Blank(s[0]) ==> i > 0
  {
    if s == "" || Blank(s[0]) then 0 else 1 + WordEnd(s[1..])
  }

  function Words(s: string): seq<string>
    decreases |s|
  {
    if s == "" then []
    else if Blank(s[0]) then Words(s[1..])
    else [s[..WordEnd(s)]] + Words(s[WordEnd(s)..])
  }

  /** The fields of a line: an address, and the names that it is looked up by. */
  function Fields(line: string): seq<string> {
    Words(BeforeComment(line))
  }

  predicate IsWord(w: string) {
    w != "" && Solid(w)
  }

  /** No blank and no hash. */
  predicate Solid(w: string) {
    forall i :: 0 <= i < |w| ==> !Blank(w[i]) && w[i] != '#'
  }

  predicate HashFree(s: string) {
    forall i :: 0 <= i < |s| ==> s[i] != '#'
  }

  lemma {:induction false} CommentIsCut(line: string, comment: string)
    requires HashFree(line) && comment != "" && comment[0] == '#'
    ensures BeforeComment(line + comment) == line
  {
    if line == "" {
      assert line + comment == comment;
    } else {
      assert (line + comment)[1..] == line[1..] + comment;
      CommentIsCut(line[1..], comment);
    }
  }

  lemma {:induction false} NextWord(w: string, c: char, s: string)
    requires IsWord(w) && Blank(c)
    ensures Words(w + [c] + s) == [w] + Words(s)
  {
    var t := w + [c] + s;
    assert t[|w|] == c && forall j :: 0 <= j < |w| ==> t[j] == w[j];
    assert WordEnd(t) == |w|;
    assert t[..|w|] == w && t[|w|..] == [c] + s && ([c] + s)[1..] == s;
  }

  lemma {:induction false} JoinedWords(ds: seq<string>)
    requires forall d :: d in ds ==> IsWord(d)
    ensures Words(JoinWithSpaces(ds) + " ") == ds && HashFree(JoinWithSpaces(ds))
  {
    if ds == [] {
      assert JoinWithSpaces(ds) + " " == " " && " "[1..] == "";
    } else if |ds| == 1 {
      NextWord(ds[0], ' ', "");
      assert ds[0] + " " + "" == ds[0] + " ";
    } else {
      JoinedWords(ds[1..]);
      OneMoreWord(ds[0], JoinWithSpaces(ds[1..]));
    }
  }

  lemma {:induction false} OneMoreWord(w: string, s: string)
    requires IsWord(w) && HashFree(s)
    ensures Words(w + " " + s + " ") == [w] + Words(s + " ") && HashFree(w + " " + s)
  {
    NextWord(w, ' ', s + " ");
    assert w + " " + s + " " == w + [' '] + (s + " ");
  }

  lemma {:induction false} MarkedLineReads(p: string, line: string)
    requires HashFree(line) && p != "" && p[0] == '#'
    ensures Fields(Mark(p, line)) == Words(line + " ")
  {
    assert Mark(p, line) == (line + " ") + p;
    CommentIsCut(line + " ", p);
  }

  lemma {:induction false} ApiLineReads(p: string, clusterDomain: string, apiIntIP: string)
    requires p != "" && p[0] == '#' && IsWord(apiIntIP) && Solid(clusterDomain)
    ensures Fields(Mark(p, ApiLine(clusterDomain, apiIntIP))) == [apiIntIP, "api." + clusterDomain, "api-int." + clusterDomain]
  {
    var api, apiInt := "api." + clusterDomain, "api-int." + clusterDomain;
    assert Solid("api.") && Solid("api-int.");
    MarkedLineReads(p, ApiLine(clusterDomain, apiIntIP));
    assert ApiLine(clusterDomain, apiIntIP) + " " == apiIntIP + ['\t'] + (api + " " + apiInt + " ");
    ThreeWords(apiIntIP, api, apiInt);
  }

  lemma {:induction false} ThreeWords(a: string, b: string, c: string)
    requires IsWord(a) && IsWord(b) && IsWord(c)
    ensures Words(a + ['\t'] + (b + " " + c + " ")) == [a, b, c]
  {
    NextWord(c, ' ', "");
    assert c + [' '] + "" == c + " ";
    OneMoreWord(b, c);
    NextWord(a, '\t', b + " " + c + " ");
  }

  lemma {:induction false} GatewayLineReads(p: string, gatewayDomains: seq<string>, gatewayIP: string)
    requires p != "" && p[0] == '#' && IsWord(gatewayIP) && forall d :: d in gatewayDomains ==> IsWord(d)
    ensures Fields(Mark(p, GatewayLine(gatewayDomains, gatewayIP))) == [gatewayIP] + gatewayDomains
  {
    var line, names := GatewayLine(gatewayDomains, gatewayIP), JoinWithSpaces(gatewayDomains);
    JoinedWords(gatewayDomains);
    MarkedLineReads(p, line);
    assert line + " " == gatewayIP + ['\t'] + (names + " ");
    NextWord(gatewayIP, '\t', names + " ");
  }

  /** What the script is for: afterwards the two names of the API stand behind its address, and the
      gateway's domains behind the gateway's, on the lines that carry the marker. */
  lemma {:induction false} ClusterIsLookedUp(p: string, clusterDomain: string, apiIntIP: string,
                                             gatewayDomains: seq<string>, gatewayIP: string, hosts: string)
    requires OneLine(p) && p != "" && p[0] == '#' && CleanEnd(p, hosts)
    requires OneLine(clusterDomain) && OneLine(apiIntIP) && OneLine(gatewayIP) && AllOneLine(gatewayDomains)
    requires Solid(clusterDomain) && IsWord(apiIntIP) && IsWord(gatewayIP) && forall d :: d in gatewayDomains ==> IsWord(d)
    ensures var hosts' := Rewrite(p, AroConf(clusterDomain, apiIntIP, gatewayDomains, gatewayIP), hosts);
            var own := OnlyMarked(p, Lines(hosts'));
            && |own| == 2
            && Fields(own[0]) == [apiIntIP, "api." + clusterDomain, "api-int." + clusterDomain]
            && Fields(own[1]) == [gatewayIP] + gatewayDomains
  {
    HostsCarryTheCluster(p, clusterDomain, apiIntIP, gatewayDomains, gatewayIP, hosts);
    ApiLineReads(p, clusterDomain, apiIntIP);
    GatewayLineReads(p, gatewayDomains, gatewayIP);
  }

  lemma {:induction false} MarkerStartsComment()
    ensures MARKER_PATTERN != "" && MARKER_PATTERN[0] == '#' && OneLine(MARKER_PATTERN)
  {
    MarkerIsOneLine();
  }
}
