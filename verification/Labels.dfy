/** The route-label list "key1:value1,key2:value2" of `pkg/utils/base.go`. */
module Labels {
  import opened Strings
  import opened Wrappers

  /** The labels so far, after one comma-separated token adds its first two colon-separated fields. */
  function AddToken(values: map<string, string>, token: string): map<string, string> {
    var fields := Split(token, ':');
    if token != "" && |fields| > 1 then values[fields[0] := fields[1]] else values
  }

  function TokensLabels(tokens: seq<string>): map<string, string> {
    if tokens == [] then map[] else AddToken(TokensLabels(tokens[..|tokens| - 1]), tokens[|tokens| - 1])
  }

  lemma TokensLabelsSnoc(tokens: seq<string>, token: string)
    ensures TokensLabels(tokens + [token]) == AddToken(TokensLabels(tokens), token)
  {
    assert (tokens + [token])[..|tokens|] == tokens;
  }

  /** The map that `labels` stands for; the empty string stands for the nil map. */
  function Parsed(labels: string): Option<map<string, string>> {
    if labels == "" then None else Some(TokensLabels(Split(labels, ',')))
  }

  method ParseLabels(labels: string) returns (r: Option<map<string, string>>)
    ensures r == Parsed(labels)
  {
    if |labels| == 0 {
      return None;
    }
    var values: map<string, string> := map[];
    var tokens := Split(labels, ',');
    var i := 0;
    while i < |tokens|
      invariant 0 <= i <= |tokens|
      invariant values == TokensLabels(tokens[..i])
    {
      var token := tokens[i];
      TokensLabelsSnoc(tokens[..i], token);
      assert tokens[..i + 1] == tokens[..i] + [token];
      i := i + 1;
      if |token| == 0 {
        continue;
      }
      var pairs := Split(token, ':');
      if |pairs| > 1 {
        values := values[pairs[0] := pairs[1]];
      }
    }
    assert tokens[..i] == tokens;
    r := Some(values);
  }

  /** A nil map reads as the empty map. */
  function Values(m: Option<map<string, string>>): map<string, string> {
    if m.Some? then m.value else map[]
  }

  lemma AddTokenUnderOverride(a: map<string, string>, b: map<string, string>, token: string)
    ensures AddToken(a + b, token) == a + AddToken(b, token)
  {
  }

  lemma {:induction false} TokensLabelsConcat(a: seq<string>, b: seq<string>)
    ensures TokensLabels(a + b) == TokensLabels(a) + TokensLabels(b)
  {
    if b == [] {
      assert a + b == a;
    } else {
      var front, last := b[..|b| - 1], b[|b| - 1];
      assert a + b == (a + front) + [last] && b == front + [last];
      TokensLabelsSnoc(a + front, last);
      TokensLabelsSnoc(front, last);
      TokensLabelsConcat(a, front);
      AddTokenUnderOverride(TokensLabels(a), TokensLabels(front), last);
    }
  }

  lemma ValuesAreTokenLabels(labels: string)
    ensures Values(Parsed(labels)) == TokensLabels(Split(labels, ','))
  {
    if labels == "" {
      assert Split(labels, ',') == [""];
      TokensLabelsSnoc([], "");
    }
  }

  /** Two lists joined by a comma parse to the first map overridden by the second. */
  lemma JoinedListsOverride(a: string, b: string)
    ensures Values(Parsed(a + "," + b)) == Values(Parsed(a)) + Values(Parsed(b))
  {
    ValuesAreTokenLabels(a);
    ValuesAreTokenLabels(b);
    ValuesAreTokenLabels(a + "," + b);
    SplitConcat(a, ',', b);
    TokensLabelsConcat(Split(a, ','), Split(b, ','));
  }

  datatype Label = Label(key: string, value: string)

  /** A label that the list syntax can carry. */
  predicate Printable(l: Label) {
    ',' !in l.key && ':' !in l.key && ',' !in l.value && ':' !in l.value
  }

  function PrintedLabel(l: Label): string {
    l.key + ":" + l.value
  }

  function PrintedTokens(labels: seq<Label>): seq<string> {
    seq(|labels|, i requires 0 <= i < |labels| => PrintedLabel(labels[i]))
  }

  function PrintedLabels(labels: seq<Label>): string
    requires labels != []
  {
    Join(PrintedTokens(labels), ',')
  }

  lemma TokenOfPrintedLabel(l: Label, values: map<string, string>)
    requires Printable(l)
    ensures AddToken(values, PrintedLabel(l)) == values[l.key := l.value]
    ensures ',' !in PrintedLabel(l)
  {
    SplitCons(l.key, ':', l.value);
    assert Split(l.value, ':') == [l.value];
  }

  /** `m` holds for every key the value of that key's last occurrence in `labels`, and no other key. */
  ghost predicate LastWins(m: map<string, string>, labels: seq<Label>) {
    && (forall l :: l in labels ==> l.key in m)
    && (forall k :: k in m ==>
         exists i :: 0 <= i < |labels| && labels[i] == Label(k, m[k]) &&
                     forall j :: i < j < |labels| ==> labels[j].key != k)
  }

  lemma LastWinsSnoc(m: map<string, string>, labels: seq<Label>, l: Label)
    requires LastWins(m, labels)
    ensures LastWins(m[l.key := l.value], labels + [l])
  {
    var all, m' := labels + [l], m[l.key := l.value];
    forall k | k in m'
      ensures exists i :: 0 <= i < |all| && all[i] == Label(k, m'[k]) &&
                          forall j :: i < j < |all| ==> all[j].key != k
    {
      if k == l.key {
        assert all[|labels|] == Label(k, m'[k]);
      } else {
        var i :| 0 <= i < |labels| && labels[i] == Label(k, m[k]) &&
                 forall j :: i < j < |labels| ==> labels[j].key != k;
        assert all[i] == Label(k, m'[k]);
      }
    }
  }

  lemma {:induction false} TokensOfPrintedLabels(labels: seq<Label>)
    requires forall l :: l in labels ==> Printable(l)
    ensures LastWins(TokensLabels(PrintedTokens(labels)), labels)
  {
    if labels != [] {
      var front, l := labels[..|labels| - 1], labels[|labels| - 1];
      assert labels == front + [l];
      assert PrintedTokens(labels) == PrintedTokens(front) + [PrintedLabel(l)];
      TokensOfPrintedLabels(front);
      var before := TokensLabels(PrintedTokens(front));
      TokenOfPrintedLabel(l, before);
      TokensLabelsSnoc(PrintedTokens(front), PrintedLabel(l));
      LastWinsSnoc(before, front, l);
    }
  }

  /**
   Parsing undoes printing for every non-empty list of labels without commas and colons, empty keys
   and values included; a repeated key keeps its last value.
   */
  lemma ParseUndoesPrint(labels: seq<Label>)
    requires labels != []
    requires forall l :: l in labels ==> Printable(l)
    ensures var r := Parsed(PrintedLabels(labels));
            r.Some? && LastWins(r.value, labels)
  {
    var tokens := PrintedTokens(labels);
    forall t | t in tokens ensures ',' !in t {
      var i :| 0 <= i < |tokens| && tokens[i] == t;
      assert labels[i] in labels;
      TokenOfPrintedLabel(labels[i], map[]);
    }
    SplitJoin(tokens, ',');
    TokensOfPrintedLabels(labels);
    assert ':' in PrintedLabels(labels) by {
      assert tokens[0] == PrintedLabel(labels[0]);
      assert tokens[0][|labels[0].key|] == ':';
      assert PrintedLabels(labels)[|labels[0].key|] == ':';
    }
  }

  /**
   What one token adds, for every token: nothing without a colon, and otherwise the field before its first colon with
   the field up to the second colon, if there is one, as value.
   */
  lemma TokenMeaning(key: string, value: string, more: string)
    requires ':' !in key && ':' !in value && ',' !in key && ',' !in value && ',' !in more
    ensures key != "" ==> Parsed(key) == Some(map[])
    ensures Parsed("") == None
    ensures Parsed(key + ":" + value) == Some(map[key := value])
    ensures Parsed(key + ":" + value + ":" + more) == Some(map[key := value])
  {
    OneToken(key);
    OneToken(key + ":" + value);
    OneToken(key + ":" + value + ":" + more);
    assert Split(key, ':') == [key];
    SplitCons(key, ':', value);
    assert Split(value, ':') == [value];
    var rest := value + ":" + more;
    assert key + ":" + value + ":" + more == key + ":" + rest;
    SplitCons(key, ':', rest);
    SplitCons(value, ':', more);
  }

  lemma OneToken(token: string)
    requires ',' !in token
    ensures token != "" ==> Parsed(token) == Some(AddToken(map[], token))
  {
    assert Split(token, ',') == [token];
    TokensLabelsSnoc([], token);
    assert [] + [token] == [token];
  }
}
