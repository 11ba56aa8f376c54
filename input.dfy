/** The comma split that turns the -s/--subcommands flag value into the list
    of candidate sub-command names (cli-init.go:152, strings.Split with ",").
    An empty flag value splits into the single empty string [""], which the
    rest of the program reads as "no sub-commands". */
module Input {

  /** The parts of s between commas, in order; always at least one part. */
  function SplitComma(s: string): (parts: seq<string>)
    ensures |parts| >= 1
    decreases |s|
  {
    if s == [] then [""]
    else
      var rest := SplitComma(s[1..]);
      if s[0] == ',' then [""] + rest
      else [[s[0]] + rest[0]] + rest[1..]
  }

  /** No part holds a comma, and there is one part more than there are
      commas in s. */
  lemma {:induction false} SplitParts(s: string)
    ensures forall i | 0 <= i < |SplitComma(s)| :: ',' !in SplitComma(s)[i]
    ensures |SplitComma(s)| == multiset(s)[','] + 1
    decreases |s|
  {
    if s != [] {
      SplitParts(s[1..]);
      assert s == [s[0]] + s[1..];
      var rest := SplitComma(s[1..]);
      var parts := SplitComma(s);
      if s[0] != ',' {
        assert forall i | 1 <= i < |parts| :: parts[i] == rest[i];
        assert ',' !in [s[0]] + rest[0];
      } else {
        assert forall i | 1 <= i < |parts| :: parts[i] == rest[i - 1];
      }
    }
  }

  /** The inverse of SplitComma: the parts put back together with commas. */
  function JoinComma(parts: seq<string>): (s: string)
    requires |parts| >= 1
    decreases |parts|
  {
    if |parts| == 1 then parts[0] else parts[0] + "," + JoinComma(parts[1..])
  }

  /** Joining the parts of a split gives back the flag value. */
  lemma {:induction false} JoinSplit(s: string)
    ensures JoinComma(SplitComma(s)) == s
    decreases |s|
  {
    if s != [] {
      JoinSplit(s[1..]);
      var rest := SplitComma(s[1..]);
      if s[0] == ',' {
        assert SplitComma(s)[1..] == rest;
      } else {
        var parts := SplitComma(s);
        assert parts[1..] == rest[1..];
        if |rest| == 1 {
          assert JoinComma(parts) == [s[0]] + rest[0];
        } else {
          assert JoinComma(rest) == rest[0] + "," + JoinComma(rest[1..]);
          assert JoinComma(parts) == ([s[0]] + rest[0]) + "," + JoinComma(rest[1..]);
        }
      }
    }
  }

  /** Prepending a comma-free word glues it to the first part of the split. */
  lemma {:induction false} SplitPrefix(w: string, t: string)
    requires ',' !in w
    ensures SplitComma(w + t) == [w + SplitComma(t)[0]] + SplitComma(t)[1..]
    decreases |w|
  {
    if w != [] {
      SplitPrefix(w[1..], t);
      assert (w + t)[1..] == w[1..] + t;
      assert w[0] in w;
      assert [w[0]] + (w[1..] + SplitComma(t)[0]) == w + SplitComma(t)[0];
    } else {
      assert w + t == t && w + SplitComma(t)[0] == SplitComma(t)[0];
      assert SplitComma(t) == [SplitComma(t)[0]] + SplitComma(t)[1..];
    }
  }

  /** A leading comma closes an empty first part. */
  lemma SplitLeadingComma(t: string)
    ensures SplitComma("," + t) == [""] + SplitComma(t)
  {
  }

  /** Splitting a join of comma-free parts gives back the parts. */
  lemma {:induction false} SplitJoin(parts: seq<string>)
    requires |parts| >= 1
    requires forall i | 0 <= i < |parts| :: ',' !in parts[i]
    ensures SplitComma(JoinComma(parts)) == parts
    decreases |parts|
  {
    if |parts| == 1 {
      SplitPrefix(parts[0], "");
      assert parts[0] + "" == parts[0];
      assert SplitComma("") == [""];
      assert parts == [parts[0]];
    } else {
      var tail := JoinComma(parts[1..]);
      SplitJoin(parts[1..]);
      assert parts[0] + "," + tail == parts[0] + ("," + tail);
      SplitPrefix(parts[0], "," + tail);
      SplitLeadingComma(tail);
      assert parts[0] + "" == parts[0];
      assert [parts[0]] + parts[1..] == parts;
    }
  }

  /** The first part is the empty sentinel exactly when the flag value is
      empty or starts with a comma: "-s ,add" asks for no sub-commands. */
  lemma FirstPartEmpty(s: string)
    ensures SplitComma(s)[0] == "" <==> s == [] || s[0] == ','
  {
  }

  /** An empty flag value gives the single empty string. */
  lemma EmptyFlag()
    ensures SplitComma("") == [""]
  {
  }

  /** Example from the help text: "add,list,delete". */
  lemma HelpExample()
    ensures SplitComma("add,list,delete") == ["add", "list", "delete"]
  {
    var names := ["add", "list", "delete"];
    assert names[1..] == ["list", "delete"] && names[1..][1..] == ["delete"];
    assert JoinComma(names) == "add,list,delete";
    SplitJoin(names);
  }

  /** Two commas in a row give an empty part between them. */
  lemma DoubleCommaSplit()
    ensures SplitComma("add,,list") == ["add", "", "list"]
  {
    var parts := ["add", "", "list"];
    assert parts[1..] == ["", "list"] && parts[1..][1..] == ["list"];
    assert JoinComma(parts) == "add,,list";
    SplitJoin(parts);
  }
}
