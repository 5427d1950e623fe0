/**
 * `parseStringToObject`: one step string, split on single spaces, scanned left
 * to right by a small state machine (pending key, open block, block text) that
 * writes key/value pairs into a fresh object.
 */
module TokenParser {
  import opened Strings
  import opened JsValue

  /** The scan's variables between two tokens: `result`, `key`, `inBlock`, `blockContent`. */
  datatype ParseState = ParseState(result: Record, key: string, inBlock: bool, blockContent: string)

  /** Before the first token: no properties, no pending key, no open block. */
  const Start := ParseState(map[], "", false, "")

  /** Neither a key nor a value is pending and no block is open. */
  predicate Idle(st: ParseState) {
    st.key == "" && !st.inBlock
  }

  predicate HasBothBraces(token: string) {
    '{' in token && '}' in token
  }

  /** A token the scan reads as a key or as a plain value: no brace pair, no opening brace in front. */
  predicate IsPlainToken(token: string) {
    !HasBothBraces(token) && !StartsWith(token, '{')
  }

  /** A token inside an open block that does not close it. */
  predicate IsInnerToken(token: string) {
    IsPlainToken(token) && !EndsWith(token, '}')
  }

  /** The text a token with both braces stands for: what lies between its first `{` and its first `}`. */
  function BracedText(token: string): (v: string)
    requires HasBothBraces(token)
    ensures var i, j := FirstIndex(token, '{'), FirstIndex(token, '}');
      (i < j ==> v == token[i + 1..j]) && (j <= i ==> v == "")
  {
    Slice(token, FirstIndex(token, '{') + 1, FirstIndex(token, '}'))
  }

  /** One turn of the scan, branch for branch in the source's order. */
  function Step(st: ParseState, token: string): ParseState {
    if HasBothBraces(token) then
      st.(result := Store(st.result, st.key, Str(BracedText(token))), key := "")
    else if StartsWith(token, '{') then
      st.(inBlock := true, blockContent := Slice(token, 1, |token|))
    else if st.inBlock then
      var content := st.blockContent + " " + Slice(token, 0, -1);
      if EndsWith(token, '}') then
        st.(inBlock := false, result := Store(st.result, st.key, Str(content)), key := "", blockContent := "")
      else
        st.(blockContent := content)
    else if st.key == "" then
      st.(key := token)
    else
      st.(result := Store(st.result, st.key, PlainValue(token)), key := "")
  }

  /** The scan over the remaining tokens. */
  function Run(st: ParseState, tokens: seq<string>): ParseState
    decreases |tokens|
  {
    if tokens == [] then st else Run(Step(st, tokens[0]), tokens[1..])
  }

  function Tokens(str: string): seq<string> {
    Split(str, " ")
  }

  /** The record `parseStringToObject(str)` returns. */
  function Parse(str: string): Record {
    Run(Start, Tokens(str)).result
  }

  /** The five branches of one turn of the scan, one by one. */
  lemma StepCases(st: ParseState, t: string)
    ensures HasBothBraces(t) ==>
      Step(st, t) == st.(result := Store(st.result, st.key, Str(BracedText(t))), key := "")
    ensures !HasBothBraces(t) && StartsWith(t, '{') ==>
      Step(st, t) == st.(inBlock := true, blockContent := Slice(t, 1, |t|))
    ensures IsPlainToken(t) && st.inBlock && EndsWith(t, '}') ==>
      Step(st, t) == st.(inBlock := false, key := "", blockContent := "",
        result := Store(st.result, st.key, Str(st.blockContent + " " + Slice(t, 0, -1))))
    ensures IsPlainToken(t) && st.inBlock && !EndsWith(t, '}') ==>
      Step(st, t) == st.(blockContent := st.blockContent + " " + Slice(t, 0, -1))
    ensures IsPlainToken(t) && !st.inBlock && st.key == "" ==> Step(st, t) == st.(key := t)
    ensures IsPlainToken(t) && !st.inBlock && st.key != "" ==>
      Step(st, t) == st.(result := Store(st.result, st.key, PlainValue(t)), key := "")
  {
  }

  /** The scan from token `i` on is one step followed by the scan from token `i + 1` on. */
  lemma RunFrom(st: ParseState, tokens: seq<string>, i: nat)
    requires i < |tokens|
    ensures Run(st, tokens[i..]) == Run(Step(st, tokens[i]), tokens[i + 1..])
  {
    assert tokens[i..][1..] == tokens[i + 1..];
  }

  /** `parseStringToObject`, written as the source's loop over the tokens. */
  method ParseStringToObject(str: string) returns (result: Record)
    ensures result == Parse(str)
  {
    result := map[];
    var key := "";
    var inBlock := false;
    var blockContent := "";
    var tokens := Split(str, " ");
    var i := 0;
    while i < |tokens|
      invariant i <= |tokens|
      invariant Run(ParseState(result, key, inBlock, blockContent), tokens[i..]) == Run(Start, tokens)
    {
      var token := tokens[i];
      ghost var before := ParseState(result, key, inBlock, blockContent);
      StepCases(before, token);
      if '{' in token && '}' in token {
        var startIndex := FirstIndex(token, '{');
        var endIndex := FirstIndex(token, '}');
        var value := Slice(token, startIndex + 1, endIndex);
        result := Store(result, key, Str(value));
        key := "";
      } else if StartsWith(token, '{') {
        inBlock := true;
        blockContent := Slice(token, 1, |token|);
      } else if inBlock {
        blockContent := blockContent + " " + Slice(token, 0, -1);
        if EndsWith(token, '}') {
          inBlock := false;
          result := Store(result, key, Str(blockContent));
          key := "";
          blockContent := "";
        }
      } else if key == "" {
        key := token;
      } else {
        var value := token;
        result := Store(result, key, PlainValue(value));
        key := "";
      }
      ghost var after := ParseState(result, key, inBlock, blockContent);
      assert after == Step(before, token);
      RunFrom(before, tokens, i);
      assert Run(after, tokens[i + 1..]) == Run(Start, tokens);
      i := i + 1;
    }
  }

  lemma {:induction false} RunAppend(st: ParseState, a: seq<string>, b: seq<string>)
    ensures Run(st, a + b) == Run(Run(st, a), b)
    decreases |a|
  {
    if a == [] {
      assert a + b == b;
    } else {
      assert (a + b)[1..] == a[1..] + b;
      RunAppend(Step(st, a[0]), a[1..], b);
    }
  }

  /** Every property was written under a token of the input or under "", and none is `undefined`. */
  ghost predicate KeysFrom(st: ParseState, tokens: seq<string>) {
    && (st.key == "" || st.key in tokens)
    && forall k :: k in st.result ==>
         (k == "" || k in tokens) && k != PROTO_KEY && !st.result[k].Undefined?
  }

  lemma StepKeepsKeysFrom(st: ParseState, token: string, tokens: seq<string>)
    requires KeysFrom(st, tokens) && token in tokens
    ensures KeysFrom(Step(st, token), tokens)
  {
  }

  lemma {:induction false} RunKeepsKeysFrom(st: ParseState, rest: seq<string>, tokens: seq<string>)
    requires KeysFrom(st, tokens)
    requires forall t :: t in rest ==> t in tokens
    ensures KeysFrom(Run(st, rest), tokens)
    decreases |rest|
  {
    if rest != [] {
      StepKeepsKeysFrom(st, rest[0], tokens);
      RunKeepsKeysFrom(Step(st, rest[0]), rest[1..], tokens);
    }
  }

  /**
   * The record holds only keys that were assigned a value: each one is a token
   * of the input or the empty key, `__proto__` never becomes a key, and no
   * property is `undefined`.
   */
  lemma ParseKeys(str: string)
    ensures forall k :: k in Parse(str) ==> k == "" || k in Tokens(str)
    ensures PROTO_KEY !in Parse(str)
    ensures forall k :: k in Parse(str) ==> !Parse(str)[k].Undefined?
  {
    RunKeepsKeysFrom(Start, Tokens(str), Tokens(str));
  }

  lemma RunSingle(st: ParseState, t: string)
    ensures Run(st, [t]) == Step(st, t)
  {
    assert [t][1..] == [];
  }

  lemma RunPair(st: ParseState, k: string, v: string)
    ensures Run(st, [k, v]) == Step(Step(st, k), v)
  {
    assert [k, v][1..] == [v];
    RunSingle(Step(st, k), v);
  }

  /** A key followed by a plain token stores the plain token's numeric reading, or the token itself. */
  lemma KeyPlainValue(st: ParseState, k: string, v: string)
    requires Idle(st) && k != "" && IsPlainToken(k) && IsPlainToken(v)
    ensures Run(st, [k, v]) == st.(result := Store(st.result, k, PlainValue(v)))
  {
    RunPair(st, k, v);
  }

  /** A key followed by a token with both braces stores the raw text between them, never a number. */
  lemma KeyBracedValue(st: ParseState, k: string, v: string)
    requires Idle(st) && k != "" && IsPlainToken(k) && HasBothBraces(v)
    ensures Run(st, [k, v]) == st.(result := Store(st.result, k, Str(BracedText(v))))
  {
    RunPair(st, k, v);
  }

  /** `token.slice(0, -1)`: the token without its last character. */
  function DropLast(t: string): (r: string)
    ensures r == Slice(t, 0, -1)
    ensures |t| > 0 ==> r + [t[|t| - 1]] == t
  {
    if t == [] then [] else t[..|t| - 1]
  }

  /** Each token appended inside a block loses its last character, whatever it is. */
  function BlockTail(inner: seq<string>): string {
    if inner == [] then "" else " " + DropLast(inner[0]) + BlockTail(inner[1..])
  }

  /** Inside a block, a token that does not close it only extends the block text. */
  lemma StepInsideBlock(st: ParseState, t: string)
    requires st.inBlock && IsInnerToken(t)
    ensures Step(st, t) == st.(blockContent := st.blockContent + " " + DropLast(t))
  {
  }

  /** The block text grows by one token's contribution at a time. */
  lemma BlockTailCons(content: string, inner: seq<string>)
    requires inner != []
    ensures content + " " + DropLast(inner[0]) + BlockTail(inner[1..]) == content + BlockTail(inner)
  {
  }

  lemma {:induction false} RunInsideBlock(st: ParseState, inner: seq<string>)
    requires st.inBlock
    requires forall k :: 0 <= k < |inner| ==> IsInnerToken(inner[k])
    ensures Run(st, inner) == st.(blockContent := st.blockContent + BlockTail(inner))
    decreases |inner|
  {
    if inner != [] {
      StepInsideBlock(st, inner[0]);
      RunInsideBlock(Step(st, inner[0]), inner[1..]);
      BlockTailCons(st.blockContent, inner);
    }
  }

  /**
   * A token opening with `{` and a later token closing with `}` store, under
   * whatever key is pending (even ""), the opening token without its brace and
   * every following token without its last character, joined by spaces. The
   * opening token starts the block afresh even when one is already open.
   */
  lemma BlockValue(st: ParseState, first: string, inner: seq<string>, last: string)
    requires StartsWith(first, '{') && '}' !in first
    requires forall k :: 0 <= k < |inner| ==> IsInnerToken(inner[k])
    requires EndsWith(last, '}') && '{' !in last
    ensures Run(st, [first] + inner + [last]) ==
      st.(result := Store(st.result, st.key, Str(first[1..] + BlockTail(inner) + " " + last[..|last| - 1])),
          key := "", inBlock := false, blockContent := "")
  {
    RunAppend(st, [first] + inner, [last]);
    RunAppend(st, [first], inner);
    var afterOpen := Step(st, first);
    RunSingle(st, first);
    assert afterOpen == st.(inBlock := true, blockContent := first[1..]);
    RunInsideBlock(afterOpen, inner);
    var filled := Run(afterOpen, inner);
    RunSingle(filled, last);
    assert Slice(last, 0, -1) == last[..|last| - 1];
  }

  /** Appending a space and a token without spaces adds that one token. */
  lemma TokensSnoc(str: string, k: string)
    requires ' ' !in k
    ensures Tokens(str + " " + k) == Tokens(str) + [k]
  {
    SplitAppendChar(str, k, ' ');
  }

  lemma TokensSnocPair(str: string, k: string, v: string)
    requires ' ' !in k && ' ' !in v
    ensures Tokens(str + " " + k + " " + v) == Tokens(str) + [k, v]
  {
    TokensSnoc(str, k);
    TokensSnoc(str + " " + k, v);
  }

  /** A key still pending when the tokens run out is dropped. */
  lemma DanglingKeyDropped(str: string, k: string)
    requires Idle(Run(Start, Tokens(str)))
    requires k != "" && ' ' !in k && IsPlainToken(k)
    ensures Parse(str + " " + k) == Parse(str)
  {
    TokensSnoc(str, k);
    RunDanglingKey(Tokens(str), k);
  }

  lemma RunDanglingKey(tokens: seq<string>, k: string)
    requires Idle(Run(Start, tokens))
    requires k != "" && IsPlainToken(k)
    ensures Run(Start, tokens + [k]).result == Run(Start, tokens).result
  {
    RunAppend(Start, tokens, [k]);
    RunSingle(Run(Start, tokens), k);
  }

  /** A key given a second plain value keeps the last one. */
  lemma LastValueWins(str: string, k: string, v: string)
    requires Idle(Run(Start, Tokens(str)))
    requires k != "" && k != PROTO_KEY && ' ' !in k && IsPlainToken(k)
    requires ' ' !in v && IsPlainToken(v)
    ensures Parse(str + " " + k + " " + v) == Parse(str)[k := PlainValue(v)]
  {
    TokensSnocPair(str, k, v);
    RunKeyPlainValue(Tokens(str), k, v);
  }

  lemma RunKeyPlainValue(tokens: seq<string>, k: string, v: string)
    requires Idle(Run(Start, tokens))
    requires k != "" && k != PROTO_KEY && IsPlainToken(k) && IsPlainToken(v)
    ensures Run(Start, tokens + [k, v]).result == Run(Start, tokens).result[k := PlainValue(v)]
  {
    RunAppend(Start, tokens, [k, v]);
    KeyPlainValue(Run(Start, tokens), k, v);
  }

  /** Inside a block, a token that does not close it still loses its last character. */
  lemma InnerTokenLosesLastChar()
    ensures Parse("title {a b c}") == map["title" := Str("a  c")]
  {
    var tokens := ["title", "{a", "b", "c}"];
    assert "title {a b c}" == Join(tokens, " ");
    SplitJoinChar(tokens, ' ');
    InnerTokenRun();
  }

  lemma InnerTokenRun()
    ensures Run(Start, ["title", "{a", "b", "c}"]).result == map["title" := Str("a  c")]
  {
    BlockValue(Step(Start, "title"), "{a", ["b"], "c}");
    assert ["title", "{a", "b", "c}"] == ["title"] + (["{a"] + ["b"] + ["c}"]);
    RunAppend(Start, ["title"], ["{a"] + ["b"] + ["c}"]);
    RunSingle(Start, "title");
    assert BlockTail(["b"]) == " ";
    assert "{a"[1..] + " " + " " + "c}"[..1] == "a  c";
  }

  /** A second opening token discards the open block's text. */
  lemma OpeningTokenRestartsBlock()
    ensures Parse("k {a {b c}") == map["k" := Str("b c")]
  {
    var tokens := ["k", "{a", "{b", "c}"];
    assert "k {a {b c}" == Join(tokens, " ");
    SplitJoinChar(tokens, ' ');
    OpeningTokenRun();
  }

  lemma OpeningTokenRun()
    ensures Run(Start, ["k", "{a", "{b", "c}"]).result == map["k" := Str("b c")]
  {
    var st := Step(Step(Start, "k"), "{a");
    BlockValue(st, "{b", [], "c}");
    assert ["k", "{a", "{b", "c}"] == ["k", "{a"] + (["{b"] + [] + ["c}"]);
    RunAppend(Start, ["k", "{a"], ["{b"] + [] + ["c}"]);
    RunPair(Start, "k", "{a");
    assert st.key == "k";
    assert "{b"[1..] + BlockTail([]) + " " + "c}"[..1] == "b c";
  }

  /** A braced token with no key before it is stored under the empty key. */
  lemma BracedTokenWithoutKey()
    ensures Parse("{x}") == map["" := Str("x")]
  {
    var t := "{" + "x" + "}";
    assert t == "{x}" && Join([t], " ") == t;
    SplitJoinChar([t], ' ');
    BracedOf("x");
    RunSingle(Start, t);
  }

  /** `k {d}` stores the text d as a string under k, whatever d looks like (a number included). */
  lemma BracedValueStaysString(k: string, d: string)
    requires k != "" && k != PROTO_KEY && ' ' !in k && IsPlainToken(k)
    requires ' ' !in d && '{' !in d && '}' !in d
    ensures Parse(k + " {" + d + "}") == map[k := Str(d)]
    ensures Idle(Run(Start, Tokens(k + " {" + d + "}")))
  {
    var v := "{" + d + "}";
    assert k + " {" + d + "}" == Join([k, v], " ");
    SplitJoinChar([k, v], ' ');
    BracedOf(d);
    KeyBracedValue(Start, k, v);
  }

  /** After whole key/value pairs, one more `k {d}` adds d as a string under k and leaves the scan idle. */
  lemma BracedPairAppended(str: string, k: string, d: string)
    requires Idle(Run(Start, Tokens(str)))
    requires k != "" && k != PROTO_KEY && ' ' !in k && IsPlainToken(k)
    requires ' ' !in d && '{' !in d && '}' !in d
    ensures Parse(str + " " + k + " {" + d + "}") == Parse(str)[k := Str(d)]
    ensures Idle(Run(Start, Tokens(str + " " + k + " {" + d + "}")))
  {
    var v := "{" + d + "}";
    assert str + " " + k + " {" + d + "}" == str + " " + k + " " + v;
    TokensSnocPair(str, k, v);
    BracedOf(d);
    RunAppend(Start, Tokens(str), [k, v]);
    KeyBracedValue(Run(Start, Tokens(str)), k, v);
  }

  /** A pair `k {d}` the scan stores as written: a plain key and a braced text with no space or brace. */
  predicate IsBracedPair(pair: (string, string)) {
    var (k, d) := pair;
    && k != "" && k != PROTO_KEY && ' ' !in k && IsPlainToken(k)
    && ' ' !in d && '{' !in d && '}' !in d
  }

  predicate AllBraced(pairs: seq<(string, string)>) {
    forall i :: 0 <= i < |pairs| ==> IsBracedPair(pairs[i])
  }

  /** The pairs written one after the other: `k1 {d1} k2 {d2} ...`. */
  function PairsText(pairs: seq<(string, string)>): string
    requires |pairs| > 0
  {
    var (k, d) := pairs[|pairs| - 1];
    if |pairs| == 1 then k + " {" + d + "}"
    else PairsText(pairs[..|pairs| - 1]) + " " + k + " {" + d + "}"
  }

  /** Each text stored under its key, a later pair overwriting an earlier one with the same key. */
  function PairsRecord(pairs: seq<(string, string)>): Record
    requires |pairs| > 0
  {
    var (k, d) := pairs[|pairs| - 1];
    if |pairs| == 1 then map[k := Str(d)]
    else PairsRecord(pairs[..|pairs| - 1])[k := Str(d)]
  }

  /** One more pair extends the record by `k := d`. */
  lemma PairsRecordSnoc(pairs: seq<(string, string)>, pair: (string, string))
    requires |pairs| > 0
    ensures PairsRecord(pairs + [pair]) == PairsRecord(pairs)[pair.0 := Str(pair.1)]
  {
    assert (pairs + [pair])[..|pairs|] == pairs;
  }

  lemma BracedSnoc(pairs: seq<(string, string)>, pair: (string, string))
    requires AllBraced(pairs) && IsBracedPair(pair)
    ensures AllBraced(pairs + [pair])
  {
  }

  /** A run of `k {d}` pairs stores every d as a string under its k, the last one for a repeated key. */
  lemma {:induction false} BracedPairs(pairs: seq<(string, string)>)
    requires |pairs| > 0 && AllBraced(pairs)
    ensures Parse(PairsText(pairs)) == PairsRecord(pairs)
    ensures Idle(Run(Start, Tokens(PairsText(pairs))))
    decreases |pairs|
  {
    var (k, d) := pairs[|pairs| - 1];
    assert IsBracedPair(pairs[|pairs| - 1]);
    if |pairs| == 1 {
      BracedValueStaysString(k, d);
    } else {
      var prefix := pairs[..|pairs| - 1];
      assert AllBraced(prefix) by {
        forall i | 0 <= i < |prefix| ensures IsBracedPair(prefix[i]) {
          assert prefix[i] == pairs[i];
        }
      }
      BracedPairs(prefix);
      BracedPairAppended(PairsText(prefix), k, d);
    }
  }

  /** The braced text of `{d}` is d when d holds no brace. */
  lemma BracedOf(d: string)
    requires '{' !in d && '}' !in d
    ensures HasBothBraces("{" + d + "}") && BracedText("{" + d + "}") == d
  {
    var v := "{" + d + "}";
    assert v[0] == '{' && v[|v| - 1] == '}';
    assert v[1..|d| + 1] == d;
    assert FirstIndex(v, '}') == |d| + 1;
  }

  /** A braced number is stored as its text: `pressure {9}` gives the string "9", not the number 9. */
  lemma BracedNumberStaysString()
    ensures Parse("pressure {9}") == map["pressure" := Str("9")]
  {
    var k := "pressure";
    assert ' ' !in k && '{' !in k;
    BracedValueStaysString(k, "9");
    assert k + " {" + "9" + "}" == "pressure {9}";
  }
}
