/**
 * The command line of the database client: splitting off the quoted value, recognising the
 * action and model keywords in any order, and checking that a command is complete.
 * Which characters count as decimal digits is a parameter, `isDecimal`.
 */
module Cli {
  import opened Wrappers
  import opened Text

  predicate IsQuote(c: char) { c == '\'' || c == '"' }

  /** Positions of the quote characters, left to right. */
  function QuoteIndices(s: string): (q: seq<nat>)
    ensures forall k :: 0 <= k < |q| ==> q[k] < |s|
    ensures forall a, b :: 0 <= a < b < |q| ==> q[a] < q[b]
  {
    if s == [] then []
    else
      var p := QuoteIndices(s[..|s| - 1]);
      p + (if IsQuote(s[|s| - 1]) then [|s| - 1] else [])
  }

  /** Exactly the quote characters are listed. */
  lemma {:induction false} QuoteIndicesExact(s: string)
    ensures forall k :: 0 <= k < |QuoteIndices(s)| ==> IsQuote(s[QuoteIndices(s)[k]])
    ensures forall i :: 0 <= i < |s| && IsQuote(s[i]) ==> i in QuoteIndices(s)
  {
    if s != [] {
      var s' := s[..|s| - 1];
      QuoteIndicesExact(s');
      assert forall i :: 0 <= i < |s'| ==> s'[i] == s[i];
    }
  }

  /** The quoted value and the words around it; `rest` is `None` for an odd number of quotes. */
  datatype Split = Split(value: string, rest: Option<seq<string>>)

  /** What quotas_split answers: only the last pair of quotes delimits the value. */
  function SplitQuoted(s: string): (r: Split)
    ensures r.rest.None? <==> |QuoteIndices(s)| % 2 == 1
    ensures r.rest.None? ==> r.value == ""
    ensures |QuoteIndices(s)| == 0 ==> r == Split("", Some(Words(s)))
    ensures |QuoteIndices(s)| >= 2 && |QuoteIndices(s)| % 2 == 0 ==>
      r.value == s[QuoteIndices(s)[|QuoteIndices(s)| - 2] + 1..QuoteIndices(s)[|QuoteIndices(s)| - 1]]
    ensures |QuoteIndices(s)| >= 2 && |QuoteIndices(s)| % 2 == 0 ==>
      r.rest == Some(Words(s[..QuoteIndices(s)[|QuoteIndices(s)| - 2]] + s[QuoteIndices(s)[|QuoteIndices(s)| - 1] + 1..]))
  {
    var q := QuoteIndices(s);
    PositionsDecide(q);
    SplitAt(s, StartAfter(q), EndAt(q))
  }

  /** The decisions after the scanning loop, from the remembered `start` and `end`. */
  function SplitAt(s: string, start: nat, end: nat): Split
    requires end < |s| || end == 0
    requires start <= end && end != 0 ==> 1 <= start
  {
    if start > end then Split("", None)
    else if end == 0 then Split("", Some(Words(s)))
    else Split(s[start..end], Some(Words(s[..start - 1] + s[end + 1..])))
  }

  /** The value lies between the last two quotes, so it holds no quote itself. */
  lemma ValueIsUnquoted(s: string)
    requires |QuoteIndices(s)| >= 2 && |QuoteIndices(s)| % 2 == 0
    ensures forall c :: c in SplitQuoted(s).value ==> !IsQuote(c)
  {
    var q := QuoteIndices(s);
    var n := |q|;
    var o, c := q[n - 2], q[n - 1];
    var v := SplitQuoted(s).value;
    assert v == s[o + 1..c];
    forall ch | ch in v ensures !IsQuote(ch) {
      var j :| 0 <= j < |v| && v[j] == ch;
      assert ch == s[o + 1 + j];
      NoQuoteInside(s, o + 1 + j);
    }
  }

  /** No character strictly between the last two quotes is a quote. */
  lemma NoQuoteInside(s: string, i: nat)
    requires |QuoteIndices(s)| >= 2
    requires QuoteIndices(s)[|QuoteIndices(s)| - 2] < i < QuoteIndices(s)[|QuoteIndices(s)| - 1]
    ensures !IsQuote(s[i])
  {
    QuoteIndicesExact(s);
    NotBetweenLastPair(QuoteIndices(s), i);
  }

  /** No entry of an ascending sequence lies strictly between its last two entries. */
  lemma NotBetweenLastPair(q: seq<nat>, i: nat)
    requires |q| >= 2
    requires forall a, b :: 0 <= a < b < |q| ==> q[a] < q[b]
    ensures q[|q| - 2] < i < q[|q| - 1] ==> i !in q
  {
    if i in q {
      var k :| 0 <= k < |q| && q[k] == i;
      if k < |q| - 2 {
        assert q[k] < q[|q| - 2];
      }
    }
  }

  /** The value of `start` after the loop has seen `q`: just past the last opening quote. */
  function StartAfter(q: seq<nat>): nat {
    if |q| == 0 then 0
    else if |q| % 2 == 1 then q[|q| - 1] + 1
    else q[|q| - 2] + 1
  }

  /** The value of `end` after the loop has seen `q`: the last closing quote. */
  function EndAt(q: seq<nat>): nat {
    if |q| < 2 then 0
    else if |q| % 2 == 0 then q[|q| - 1]
    else q[|q| - 2]
  }

  /** The scanning loop of quotas_split: one pass that remembers just past the last opening
      quote and the last closing quote. */
  method QuotePositions(cons: string) returns (start: nat, end: nat)
    ensures start == StartAfter(QuoteIndices(cons)) && end == EndAt(QuoteIndices(cons))
  {
    start, end := 0, 0;
    var i := 0;
    var flag := true;
    ghost var q: seq<nat> := [];
    while i < |cons|
      invariant 0 <= i <= |cons|
      invariant q == QuoteIndices(cons[..i])
      invariant flag <==> |q| % 2 == 0
      invariant start == StartAfter(q) && end == EndAt(q)
    {
      QuoteIndicesStep(cons, i);
      if IsQuote(cons[i]) {
        PositionsStep(q, i);
        if flag {
          start := i + 1;
        } else {
          end := i;
        }
        flag := !flag;
        q := q + [i];
      }
      i := i + 1;
    }
    assert cons[..|cons|] == cons;
  }

  /** quotas_split: an odd number of quotes is an error; no quotes leaves the value empty;
      otherwise the value is the text inside the last pair of quotes. */
  method QuotasSplit(cons: string) returns (value: string, rest: Option<seq<string>>)
    ensures Split(value, rest) == SplitQuoted(cons)
  {
    var start, end := QuotePositions(cons);
    if start > end {
      return "", None;
    }
    if end == 0 {
      return "", Some(Words(cons));
    }
    value := cons[start..end];
    rest := Some(Words(cons[..start - 1] + cons[end + 1..]));
  }

  /** A quote at position i opens when an even number came before it, and closes otherwise. */
  lemma PositionsStep(q: seq<nat>, i: nat)
    ensures |q| % 2 == 0 ==> StartAfter(q + [i]) == i + 1 && EndAt(q + [i]) == EndAt(q)
    ensures |q| % 2 == 1 ==> StartAfter(q + [i]) == StartAfter(q) && EndAt(q + [i]) == i
  {
  }

  lemma QuoteIndicesStep(s: string, i: nat)
    requires i < |s|
    ensures QuoteIndices(s[..i + 1]) == QuoteIndices(s[..i]) + (if IsQuote(s[i]) then [i] else [])
  {
    assert s[..i + 1][..i] == s[..i];
  }

  /** What the two remembered positions tell about the number of quotes. */
  lemma PositionsDecide(q: seq<nat>)
    requires forall a, b :: 0 <= a < b < |q| ==> q[a] < q[b]
    ensures StartAfter(q) > EndAt(q) <==> |q| % 2 == 1
    ensures |q| % 2 == 0 ==> (EndAt(q) == 0 <==> |q| == 0)
  {
    if |q| >= 2 {
      assert q[|q| - 2] < q[|q| - 1];
    }
  }

  /** extract_action: the canonical action for a keyword, or "" for any other word. */
  function ExtractAction(r: string): (a: string)
    ensures a == "new" <==> r in ["+", "new", "create"]
    ensures a == "del" <==> r in ["-", "del", "remove"]
    ensures a == "set" <==> r in ["~", "set", "update"]
    ensures a == "get" <==> r in ["=", "get", "list"]
    ensures a == "lay" <==> r in ["*", "lay", "query"]
    ensures a in ["new", "del", "set", "get", "lay", ""]
  {
    if r in ["+", "new", "create"] then "new"
    else if r in ["-", "del", "remove"] then "del"
    else if r in ["~", "set", "update"] then "set"
    else if r in ["=", "get", "list"] then "get"
    else if r in ["*", "lay", "query"] then "lay"
    else ""
  }

  /** extract_model: the table a word names, or "". */
  function ExtractModel(r: string): (m: string)
    ensures m == "students" <==> r in ["s", "students"]
    ensures m == "groups" <==> r in ["g", "groups"]
    ensures m == "teachers" <==> r in ["t", "teachers"]
    ensures m == "courses" <==> r in ["c", "courses"]
    ensures m == "ratings" <==> r in ["r", "ratings"]
    ensures m in ["students", "groups", "teachers", "courses", "ratings", ""]
  {
    if r in ["s", "students"] then "students"
    else if r in ["g", "groups"] then "groups"
    else if r in ["t", "teachers"] then "teachers"
    else if r in ["c", "courses"] then "courses"
    else if r in ["r", "ratings"] then "ratings"
    else ""
  }

  /** Canonical names are keywords for themselves. */
  lemma KeywordsCanonical(r: string)
    ensures ExtractAction(ExtractAction(r)) == ExtractAction(r)
    ensures ExtractModel(ExtractModel(r)) == ExtractModel(r)
  {
  }

  const FieldNames := ["name", "group_id", "teach_id", "rate", "week", "course_id", "stud_id"]

  /** `str.isdecimal()`: non-empty and decimal throughout. */
  predicate IsDecimalWord(t: string, isDecimal: char -> bool) {
    |t| > 0 && forall i :: 0 <= i < |t| ==> isDecimal(t[i])
  }

  // What a word offers to each of the four slots of a command; "" for nothing.
  function ActionOf(t: string): string { ExtractAction(Lower(t)) }
  function ModelOf(t: string): string { ExtractModel(Lower(t)) }
  function IdOf(isDecimal: char -> bool): string -> string {
    t => if IsDecimalWord(t, isDecimal) then Lower(t) else ""
  }
  function FieldOf(t: string): string { if Lower(t) in FieldNames then Lower(t) else "" }

  lemma FirstOfferStep(words: seq<string>, i: nat, f: string -> string)
    requires i < |words|
    ensures FirstOffer(words[..i + 1], f) ==
      if FirstOffer(words[..i], f) == "" then f(words[i]) else FirstOffer(words[..i], f)
  {
    assert words[..i + 1][..i] == words[..i];
  }

  /** A slot keeps the first non-empty offer among the words, left to right. */
  function FirstOffer(words: seq<string>, f: string -> string): (r: string)
    ensures r == "" <==> forall k :: 0 <= k < |words| ==> f(words[k]) == ""
  {
    if words == [] then ""
    else
      var p := FirstOffer(words[..|words| - 1], f);
      if p == "" then f(words[|words| - 1]) else p
  }

  /** The offer kept is that of the first word offering anything. */
  lemma {:induction false} FirstOfferIsFirst(words: seq<string>, f: string -> string) returns (k: nat)
    requires FirstOffer(words, f) != ""
    ensures k < |words| && f(words[k]) == FirstOffer(words, f)
    ensures forall j :: 0 <= j < k ==> f(words[j]) == ""
  {
    var init := words[..|words| - 1];
    if FirstOffer(init, f) == "" {
      k := |words| - 1;
      assert forall j :: 0 <= j < k ==> words[j] == init[j];
    } else {
      k := FirstOfferIsFirst(init, f);
    }
  }

  lemma {:induction false} FirstOfferAppend(x: seq<string>, y: seq<string>, f: string -> string)
    ensures FirstOffer(x + y, f) == if FirstOffer(x, f) != "" then FirstOffer(x, f) else FirstOffer(y, f)
    decreases |y|
  {
    if y == [] {
      assert x + y == x;
    } else {
      var y' := y[..|y| - 1];
      assert (x + y)[..|x + y| - 1] == x + y';
      FirstOfferAppend(x, y', f);
    }
  }

  /** Two neighbouring words may trade places when at most one of them offers anything. */
  lemma SwapNeighbours(p: seq<string>, a: string, b: string, s: seq<string>, f: string -> string)
    requires f(a) == "" || f(b) == ""
    ensures FirstOffer(p + [a, b] + s, f) == FirstOffer(p + [b, a] + s, f)
  {
    FirstOfferAppend(p, [a, b], f);
    FirstOfferAppend(p, [b, a], f);
    FirstOfferAppend(p + [a, b], s, f);
    FirstOfferAppend(p + [b, a], s, f);
    assert [a, b][..1] == [a] && [b, a][..1] == [b];
    assert [a][..0] == [] && [b][..0] == [];
  }

  /** A parsed command, with the field forced to "name" for a creation. */
  datatype Order = Order(act: string, model: string, id: string, field: string, value: string)

  /** The completeness checks of explain, in the order it makes them. */
  function Decide(value: string, act: string, model: string, id: string, field: string): (r: Option<Order>)
    ensures r.Some? <==>
      act != "" && (act == "lay" || model != "")
      && (act == "new" ==> value != "")
      && (act == "del" ==> id != "")
      && (act == "set" ==> id != "" && field != "" && value != "")
      && (act == "lay" ==> id != "")
    ensures r.Some? ==> r.value == Order(act, model, id, if act == "new" then "name" else field, value)
  {
    if act == "" then None
    else if act != "lay" && model == "" then None
    else if act == "new" && value == "" then None
    else if act == "del" && id == "" then None
    else if act == "set" && (id == "" || field == "" || value == "") then None
    else if act == "lay" && id == "" then None
    else Some(Order(act, model, id, if act == "new" then "name" else field, value))
  }

  /** explain, once the value has been split off: no words is no command. */
  function ExplainWords(value: string, words: seq<string>, isDecimal: char -> bool): Option<Order> {
    if words == [] then None
    else Decide(value, FirstOffer(words, ActionOf), FirstOffer(words, ModelOf),
                FirstOffer(words, IdOf(isDecimal)), FirstOffer(words, FieldOf))
  }

  /** explain: no command without an even number of quotes and at least one word outside them. */
  function ExplainSpec(consol: string, isDecimal: char -> bool): (r: Option<Order>)
    ensures |QuoteIndices(consol)| % 2 == 1 ==> r.None?
    ensures SplitQuoted(consol).rest == Some([]) ==> r.None?
    ensures r.Some? ==> r.value.value == SplitQuoted(consol).value
  {
    var sp := SplitQuoted(consol);
    if sp.rest.None? then None else ExplainWords(sp.value, sp.rest.value, isDecimal)
  }

  /** The words of a command may come in any order: swapping two neighbours that fill different
      slots gives the same command. */
  lemma ExplainAnyOrder(value: string, p: seq<string>, a: string, b: string, s: seq<string>,
                        isDecimal: char -> bool)
    requires ActionOf(a) == "" || ActionOf(b) == ""
    requires ModelOf(a) == "" || ModelOf(b) == ""
    requires IdOf(isDecimal)(a) == "" || IdOf(isDecimal)(b) == ""
    requires FieldOf(a) == "" || FieldOf(b) == ""
    ensures ExplainWords(value, p + [a, b] + s, isDecimal) == ExplainWords(value, p + [b, a] + s, isDecimal)
  {
    SwapNeighbours(p, a, b, s, ActionOf);
    SwapNeighbours(p, a, b, s, ModelOf);
    SwapNeighbours(p, a, b, s, IdOf(isDecimal));
    SwapNeighbours(p, a, b, s, FieldOf);
  }

  /** explain: splits off the value, then reads the words. */
  method Explain(consol: string, isDecimal: char -> bool) returns (r: Option<Order>)
    ensures r == ExplainSpec(consol, isDecimal)
  {
    var value, rest := QuotasSplit(consol);
    if rest.None? {
      return None;
    }
    r := ReadWords(value, rest.value, isDecimal);
  }

  /** One word read: an empty slot takes the word's offer, a filled one keeps its value. */
  lemma SlotStep(words: seq<string>, i: nat, f: string -> string, slot: string, offer: string)
    requires i < |words| && slot == FirstOffer(words[..i], f) && offer == f(words[i])
    ensures FirstOffer(words[..i + 1], f) == if slot == "" then offer else slot
  {
    FirstOfferStep(words, i, f);
  }

  /** The body of explain after the split: reads the words once, filling each slot with the
      first word that offers it, then checks the command. */
  method ReadWords(value: string, words: seq<string>, isDecimal: char -> bool) returns (r: Option<Order>)
    ensures r == ExplainWords(value, words, isDecimal)
  {
    if words == [] {
      return None;
    }
    var action, model, id, field := "", "", "", "";
    var i := 0;
    while i < |words|
      invariant 0 <= i <= |words|
      invariant action == FirstOffer(words[..i], ActionOf)
      invariant model == FirstOffer(words[..i], ModelOf)
      invariant id == FirstOffer(words[..i], IdOf(isDecimal))
      invariant field == FirstOffer(words[..i], FieldOf)
    {
      var row := words[i];
      var r := Lower(row);
      SlotStep(words, i, ActionOf, action, ExtractAction(r));
      SlotStep(words, i, ModelOf, model, ExtractModel(r));
      SlotStep(words, i, IdOf(isDecimal), id, if IsDecimalWord(row, isDecimal) then r else "");
      SlotStep(words, i, FieldOf, field, if r in FieldNames then r else "");
      if action == "" {
        action := ExtractAction(r);
      }
      if model == "" {
        model := ExtractModel(r);
      }
      if id == "" && IsDecimalWord(row, isDecimal) {
        id := r;
      }
      if field == "" && r in FieldNames {
        field := r;
      }
      i := i + 1;
    }
    assert words[..|words|] == words;
    r := Decide(value, action, model, id, field);
  }
}
