/**
 Stripping a search suffix from a query name (`dnsHandler.Preprocess` in `internal/resolver/handler.go`)
 and how that relates to the recursor's search expansion.
 */
module SearchNames {
  import opened Names
  import opened Recursor
  import opened Strings
  import opened Upstreams

  /** Whether `entry`, given its final dot, ends the query name. */
  predicate Matches(qname: string, entry: string) {
    HasSuffix(qname, AddQuota(entry))
  }

  /** The first search entry, not before `start`, that ends the query name; else the length of the list. */
  function FirstMatchFrom(search: seq<string>, qname: string, start: nat): (i: nat)
    requires start <= |search|
    ensures start <= i <= |search|
    ensures i < |search| ==> Matches(qname, search[i])
    ensures forall j :: start <= j < i ==> !Matches(qname, search[j])
    decreases |search| - start
  {
    if start == |search| || Matches(qname, search[start]) then start
    else FirstMatchFrom(search, qname, start + 1)
  }

  function FirstMatch(search: seq<string>, qname: string): nat {
    FirstMatchFrom(search, qname, 0)
  }

  function Stripped(search: seq<string>, qname: string): string {
    var i := FirstMatch(search, qname);
    if i == |search| then qname
    else
      var rest := qname[..|qname| - |AddQuota(search[i])|];
      if rest == "" then qname else rest
  }

  lemma FirstMatchIs(search: seq<string>, qname: string, i: nat)
    requires i < |search| && Matches(qname, search[i])
    requires forall j :: 0 <= j < i ==> !Matches(qname, search[j])
    ensures FirstMatch(search, qname) == i
  {
  }

  /**
   The result is a non-empty prefix of the query name, and what is missing is nothing or exactly one
   dotted search entry.
   */
  lemma StrippedIsPrefix(search: seq<string>, qname: string)
    requires qname != ""
    ensures var r := Stripped(search, qname);
            && r != "" && r <= qname
            && (r == qname || exists i :: 0 <= i < |search| && qname == r + AddQuota(search[i]))
  {
    var i := FirstMatch(search, qname);
    if i < |search| {
      var s := AddQuota(search[i]);
      assert qname == qname[..|qname| - |s|] + s;
    }
  }

  lemma StrippedLength(search: seq<string>, qname: string)
    ensures var k, r := FirstMatch(search, qname), Stripped(search, qname);
            if k == |search| || AddQuota(search[k]) == qname then r == qname
            else |qname| - |r| == |AddQuota(search[k])| && r != ""
  {
    var k := FirstMatch(search, qname);
    if k < |search| {
      var t := AddQuota(search[k]);
      assert qname == qname[..|qname| - |t|] + t;
    }
  }

  /**
   No entry is preceded by a shorter one that it ends with, unless the entry itself also comes earlier.
   */
  ghost predicate LongestFirst(search: seq<string>) {
    forall i, j :: 0 <= i < j < |search| && Shadows(search, i, j) ==> ComesBefore(search, i, j)
  }

  predicate Shadows(search: seq<string>, i: nat, j: nat)
    requires i < |search| && j < |search|
  {
    |AddQuota(search[i])| < |AddQuota(search[j])| && Matches(AddQuota(search[j]), search[i])
  }

  ghost predicate ComesBefore(search: seq<string>, i: nat, j: nat)
    requires i < |search| && j < |search|
  {
    exists k :: 0 <= k < i && AddQuota(search[k]) == AddQuota(search[j])
  }

  /** The entry chosen for this query name is a longest one among those that end it. */
  ghost predicate ChoosesLongest(search: seq<string>, qname: string) {
    var i := FirstMatch(search, qname);
    forall j :: 0 <= j < |search| && Matches(qname, search[j]) ==>
                  i < |search| && |AddQuota(search[j])| <= |AddQuota(search[i])|
  }

  lemma ShorterMatchEndsLonger(qname: string, a: string, b: string)
    requires Matches(qname, a) && Matches(qname, b) && |AddQuota(a)| <= |AddQuota(b)|
    ensures Matches(AddQuota(b), a)
  {
    var s, t := AddQuota(a), AddQuota(b);
    assert t[|t| - |s|..] == qname[|qname| - |t|..][|t| - |s|..] == qname[|qname| - |s|..];
  }

  lemma SameDottedFormSameMatch(qname: string, a: string, b: string)
    requires AddQuota(a) == AddQuota(b)
    ensures Matches(qname, a) == Matches(qname, b)
  {
  }

  lemma ShadowedComesFirst(search: seq<string>, qname: string, i: nat, j: nat)
    requires i < j < |search| && ComesBefore(search, i, j)
    requires Matches(qname, search[j])
    ensures exists k :: 0 <= k < i && Matches(qname, search[k])
  {
    var k :| 0 <= k < i && AddQuota(search[k]) == AddQuota(search[j]);
    SameDottedFormSameMatch(qname, search[k], search[j]);
  }

  lemma OrderedNotShorter(search: seq<string>, qname: string, i: nat, j: nat)
    requires LongestFirst(search)
    requires i < j < |search| && Matches(qname, search[i]) && Matches(qname, search[j])
    requires forall k :: 0 <= k < i ==> !Matches(qname, search[k])
    ensures |AddQuota(search[j])| <= |AddQuota(search[i])|
  {
    if |AddQuota(search[i])| < |AddQuota(search[j])| {
      ShorterMatchEndsLonger(qname, search[i], search[j]);
      ShadowedComesFirst(search, qname, i, j);
    }
  }

  lemma OrderedChoosesLongest(search: seq<string>, qname: string)
    requires LongestFirst(search)
    ensures ChoosesLongest(search, qname)
  {
    var i := FirstMatch(search, qname);
    forall j | 0 <= j < |search| && Matches(qname, search[j])
      ensures i < |search| && |AddQuota(search[j])| <= |AddQuota(search[i])|
    {
      if j != i {
        assert i < j;
        OrderedNotShorter(search, qname, i, j);
      }
    }
  }

  lemma UnorderedIsCaught(search: seq<string>, i: nat, j: nat)
    requires i < j < |search| && Shadows(search, i, j)
    requires ChoosesLongest(search, AddQuota(search[j]))
    ensures ComesBefore(search, i, j)
  {
    var qname := AddQuota(search[j]);
    assert qname[|qname| - |qname|..] == qname;
    assert Matches(qname, search[j]);
    var k := FirstMatch(search, qname);
    var t := AddQuota(search[k]);
    assert qname[|qname| - |t|..] == t && |t| == |qname|;
    assert k != i && !(i < k);
  }

  /**
   Stripping takes the longest matching entry for every query name exactly when the search list is
   ordered longest first.
   */
  lemma LongestChosenIffOrdered(search: seq<string>)
    ensures (forall qname :: ChoosesLongest(search, qname)) <==> LongestFirst(search)
  {
    if LongestFirst(search) {
      forall qname ensures ChoosesLongest(search, qname) {
        OrderedChoosesLongest(search, qname);
      }
    }
    if forall qname :: ChoosesLongest(search, qname) {
      forall i, j | 0 <= i < j < |search| && Shadows(search, i, j)
        ensures ComesBefore(search, i, j)
      {
        UnorderedIsCaught(search, i, j);
      }
    }
  }

  /** An order that is not longest first strips too little. */
  lemma OrderMatters()
    ensures Stripped(["b.", "a.b."], "x.a.b.") == "x.a."
    ensures Stripped(["a.b.", "b."], "x.a.b.") == "x."
  {
    var q := "x.a.b.";
    assert q[4..] == "b." && q[2..] == "a.b.";
    assert q[..4] == "x.a." && q[..2] == "x.";
    assert Matches(q, "b.") && Matches(q, "a.b.");
    assert AddQuota("b.") == "b." && AddQuota("a.b.") == "a.b.";
    FirstMatchIs(["b.", "a.b."], q, 0);
    FirstMatchIs(["a.b.", "b."], q, 0);
  }

  // ----- Expansion and stripping -----

  lemma ExpansionShape(q: string, entry: string)
    requires entry != ""
    ensures AddQuota(q + entry) == q + AddQuota(entry)
    ensures Matches(q + AddQuota(entry), entry)
  {
    assert (q + entry)[|q + entry| - 1] == entry[|entry| - 1];
    assert q + entry + "." == q + (entry + ".");
    var s := AddQuota(entry);
    assert (q + s)[|q + s| - |s|..] == s;
  }

  /**
   A name with too few dots expands to exactly one dot-terminated name per search entry, in order; any other name
   stays alone and unchanged.
   */
  lemma ExpandedShape(settings: Settings, name: string)
    ensures multiset(name)['.'] >= settings.ndots ==> Expanded(settings, name) == [name]
    ensures multiset(name)['.'] < settings.ndots ==>
              var names := Expanded(settings, name);
              && |names| == |settings.search|
              && forall i :: 0 <= i < |names| ==>
                   var whole := name + settings.search[i];
                   names[i] == if whole != "" && whole[|whole| - 1] == '.' then whole else whole + "."
  {
  }

  lemma StripsExactly(search: seq<string>, q: string, s: string)
    requires q != "" && s != "" && FirstMatch(search, q + s) < |search|
    requires HasSuffix(q + s, s)
    ensures Stripped(search, q + s) == q <==> AddQuota(search[FirstMatch(search, q + s)]) == s
  {
    var name, t := q + s, AddQuota(search[FirstMatch(search, q + s)]);
    assert name[..|name| - |s|] == q;
    assert name[|name| - |t|..] == t && name[|name| - |s|..] == s;
  }

  /**
   Stripping the name expanded by entry `i` gives the original name back exactly when the first entry that ends
   the expanded name is entry `i`, up to its final dot.
   */
  lemma StripUndoesExpand(settings: Settings, q: string, i: nat)
    requires q != "" && Count(q, '.') < settings.ndots
    requires i < |settings.search| && settings.search[i] != ""
    ensures var search, name := settings.search, Expanded(settings, q)[i];
            var k := FirstMatch(search, name);
            k <= i && (Stripped(search, name) == q <==> AddQuota(search[k]) == AddQuota(search[i]))
  {
    ExpansionShape(q, settings.search[i]);
    StripsExactly(settings.search, q, AddQuota(settings.search[i]));
  }
}
