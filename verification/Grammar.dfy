/**
 The parser accepts exactly the JSON grammar of section 2 of RFC 8259: a value is spelled between two positions of the
 buffer, with white space, commas and colons where the grammar has them and nowhere else.
 */
module Grammar {
  import opened Wrappers
  import opened CStrings
  import opened Json
  import opened Parsing
  import opened Tokens

  /** White space and nothing else between two positions: for this parser, any byte up to 32. */
  ghost predicate Blank(c: seq<char>, i: nat, j: nat) {
    i <= j <= |c| && forall k :: i <= k < j ==> c[k] as int <= 32
  }

  /** White space up to a mark. */
  ghost predicate Mark(c: seq<char>, i: nat, k: nat, mark: char) { k < |c| && c[k] == mark && Blank(c, i, k) }

  /** These bytes stand between two positions. */
  ghost predicate Word(c: seq<char>, o: nat, e: nat, word: CStr) { e == o + |word| && LooksAt(c, o, word) }

  /**
   Where an element stands, or a member: the start and end of its name, its colon, the start and end of the value; and
   the comma behind it.
   */
  datatype Place = Place(start: nat, name: nat, colon: nat, value: nat, end: nat, comma: nat)

  /**
   A value is spelled from o up to e, nested at most `left` deep. Strings and numbers are tokens of their own.
   */
  ghost predicate Spells(c: seq<char>, o: nat, e: nat, v: JSON, left: nat)
    requires Terminated(c)
    decreases v, 1
  {
    o < e < |c| &&
    match v
    case Null => Word(c, o, e, "null")
    case False => Word(c, o, e, "false")
    case True => Word(c, o, e, "true")
    case Number(_) => (c[o] == '-' || '0' <= c[o] <= '9') && ParseNumber(c, o) == Some((v, e))
    case String(s) => c[o] == '\"' && ParseString(c, o) == Some((s, e))
    case Array(items) =>
      && left > 0 && c[o] == '[' && c[e - 1] == ']'
      && if items == [] then Blank(c, o + 1, e - 1) else Elements(c, o + 1, e - 1, items, left - 1)
    case Object(ms) =>
      && left > 0 && c[o] == '{' && c[e - 1] == '}'
      && if ms == [] then Blank(c, o + 1, e - 1) else Members(c, o + 1, e - 1, ms, left - 1)
    case _ => false
  }

  /** Elements between two positions, with commas between them. */
  ghost predicate Elements(c: seq<char>, p: nat, q: nat, items: seq<JSON>, left: nat)
    requires Terminated(c)
    decreases items, 2
  {
    items != [] && exists at: Place :: ElementsAt(c, p, q, items, at, left)
  }

  ghost predicate ElementsAt(c: seq<char>, p: nat, q: nat, items: seq<JSON>, at: Place, left: nat)
    requires Terminated(c) && items != []
    decreases items, 1
  {
    && Blank(c, p, at.value) && Spells(c, at.value, at.end, items[0], left)
    && if |items| == 1 then Blank(c, at.end, q)
       else Mark(c, at.end, at.comma, ',') && |items| > 1 && Elements(c, at.comma + 1, q, items[1..], left)
  }

  /** Members between two positions: a name, a colon, a value, and commas between them. */
  ghost predicate Members(c: seq<char>, p: nat, q: nat, ms: seq<Member>, left: nat)
    requires Terminated(c)
    decreases ms, 2
  {
    ms != [] && exists at: Place :: MembersAt(c, p, q, ms, at, left)
  }

  ghost predicate MembersAt(c: seq<char>, p: nat, q: nat, ms: seq<Member>, at: Place, left: nat)
    requires Terminated(c) && ms != []
    decreases ms, 1
  {
    && Named(c, p, at, ms[0].key) && Spells(c, at.value, at.end, ms[0].value, left)
    && if |ms| == 1 then Blank(c, at.end, q)
       else Mark(c, at.end, at.comma, ',') && Members(c, at.comma + 1, q, ms[1..], left)
  }

  ghost predicate Named(c: seq<char>, p: nat, at: Place, key: CStr)
    requires Terminated(c)
  {
    && Blank(c, p, at.start) && at.start < |c| && c[at.start] == '\"'
    && ParseString(c, at.start) == Some((key, at.name))
    && Mark(c, at.name, at.colon, ':') && Blank(c, at.colon + 1, at.value)
  }

  // ---------- white space ----------

  lemma {:induction false} RunIsBlank(c: seq<char>, o: nat)
    requires o <= |c|
    ensures Blank(c, o, SkipRun(c, o))
    decreases |c| - o
  {
    if o < |c| && c[o] <= ' ' {
      RunIsBlank(c, o + 1);
    }
  }

  /** What is skipped is white space. */
  lemma SkippedIsBlank(c: seq<char>, o: nat)
    requires o < |c|
    ensures Blank(c, o, SkipSpace(c, o))
  {
    RunIsBlank(c, o);
  }

  /** And all of it: skipping stops exactly at the first byte above 32, or on the terminator. */
  lemma {:induction false} SkipReaches(c: seq<char>, o: nat, e: nat)
    requires Blank(c, o, e) && e < |c| && c[e] as int > 32
    ensures SkipSpace(c, o) == e
    decreases e - o
  {
    if o < e {
      SkipOne(c, o);
      SkipReaches(c, o + 1, e);
    }
  }

  // ---------- values start with no white space ----------

  lemma WordStarts(c: seq<char>, o: nat, e: nat, word: CStr)
    requires Word(c, o, e, word) && word != []
    ensures o < |c| && c[o] == word[0]
  {
    LooksByte(c, o, word, 0);
  }

  lemma SpelledStarts(c: seq<char>, o: nat, e: nat, v: JSON, left: nat)
    requires Terminated(c) && Spells(c, o, e, v, left)
    ensures c[o] as int > 32 && c[o] != ',' && c[o] != ']' && c[o] != '}' && c[o] != ':'
  {
    match v
    case Null => WordStarts(c, o, e, "null");
    case False => WordStarts(c, o, e, "false");
    case True => WordStarts(c, o, e, "true");
    case _ =>
  }

  predicate Gives<T(==)>(r: Option<(T, nat)>, x: T, e: nat) { r.Some? && r.value.0 == x && r.value.1 == e }

  // ---------- what is parsed is spelled ----------

  lemma AtMark(c: seq<char>, o: nat, mark: char)
    requires o < |c| && c[SkipSpace(c, o)] == mark
    ensures Mark(c, o, SkipSpace(c, o), mark)
  {
    SkippedIsBlank(c, o);
  }

  lemma BlankThen(c: seq<char>, o: nat, e: nat, q: nat)
    requires o < |c| && SkipSpace(c, o) == e && q == e
    ensures Blank(c, o, q)
  {
    SkippedIsBlank(c, o);
  }

  /** Whatever the parser accepts as a value is spelled where it says. */
  lemma {:induction false} ParsedIsSpelled(c: seq<char>, o: nat, depth: nat)
    requires Terminated(c) && o < |c| && depth <= 1000
    ensures var r := ParseValue(c, o, depth); r.Some? ==> Spells(c, o, r.value.1, r.value.0, 1000 - depth)
    decreases |c| - o, 3
  {
    LooksInside(c, o, "null"); LooksInside(c, o, "false"); LooksInside(c, o, "true");
    if !LooksAt(c, o, "null") && !LooksAt(c, o, "false") && !LooksAt(c, o, "true") {
      if c[o] == '[' {
        var r := ParseArray(c, o, depth);
        if r.Some? {
          ArrayIsSpelled(c, o, depth, r.value.0, r.value.1);
        }
      } else if c[o] == '{' {
        var r := ParseObject(c, o, depth);
        if r.Some? {
          ObjectIsSpelled(c, o, depth, r.value.0, r.value.1);
        }
      }
    }
  }

  lemma {:induction false} ArrayIsSpelled(c: seq<char>, o: nat, depth: nat, v: JSON, e: nat)
    requires Terminated(c) && o < |c| && c[o] == '[' && depth <= 1000 && Gives(ParseArray(c, o, depth), v, e)
    ensures Spells(c, o, e, v, 1000 - depth)
    decreases |c| - o, 2
  {
    var p := SkipSpace(c, o + 1);
    SkippedIsBlank(c, o + 1);
    if c[p] != ']' {
      var items := ParseItems(c, p, depth + 1).value;
      ItemsAreSpelled(c, p, depth + 1, items.0, items.1);
      WiderItems(c, o + 1, p, items.1 - 1, items.0, 1000 - (depth + 1));
    }
  }

  lemma BlankJoins(c: seq<char>, i: nat, j: nat, k: nat)
    requires Blank(c, i, j) && Blank(c, j, k)
    ensures Blank(c, i, k)
  {
  }

  lemma WiderItems(c: seq<char>, o: nat, p: nat, q: nat, items: seq<JSON>, left: nat)
    requires Terminated(c) && Blank(c, o, p) && Elements(c, p, q, items, left)
    ensures Elements(c, o, q, items, left)
  {
    var at: Place :| ElementsAt(c, p, q, items, at, left);
    BlankJoins(c, o, p, at.value);
    assert ElementsAt(c, o, q, items, at, left);
  }

  /** One round of the element loop: where it stands, and the elements behind it. */
  lemma ItemsRound(c: seq<char>, o: nat, depth: nat, items: seq<JSON>, e: nat) returns (at: Place, rest: seq<JSON>)
    requires Terminated(c) && o < |c| && depth <= 1000 && Gives(ParseItems(c, o, depth), items, e)
    ensures items != [] && items == [items[0]] + rest
    ensures at.value == SkipSpace(c, o) && Gives(ParseValue(c, at.value, depth), items[0], at.end)
    ensures at.comma == SkipSpace(c, at.end) && at.value < at.end <= at.comma < |c|
    ensures if c[at.comma] == ',' then at.comma + 1 < |c| && Gives(ParseItems(c, at.comma + 1, depth), rest, e)
            else c[at.comma] == ']' && rest == [] && e == at.comma + 1
  {
    var start := SkipSpace(c, o);
    assert ParseElement(c, o, depth) == ParseValue(c, start, depth);
    var end := ParseValue(c, start, depth).value.1;
    at := Place(start, start, start, start, end, SkipSpace(c, end));
    assert Ends(c, at.comma) <==> at.comma == |c| - 1;
    rest := items[1..];
  }

  lemma ItemsCons(c: seq<char>, o: nat, q: nat, at: Place, v: JSON, rest: seq<JSON>, left: nat)
    requires Terminated(c) && Blank(c, o, at.value) && Spells(c, at.value, at.end, v, left)
    requires if rest == [] then Blank(c, at.end, q)
             else Mark(c, at.end, at.comma, ',') && Elements(c, at.comma + 1, q, rest, left)
    ensures Elements(c, o, q, [v] + rest, left)
  {
    var items := [v] + rest;
    assert items[1..] == rest;
    assert ElementsAt(c, o, q, items, at, left);
  }

  /** The element loop, through the closing bracket. */
  lemma {:induction false} ItemsAreSpelled(c: seq<char>, o: nat, depth: nat, items: seq<JSON>, e: nat)
    requires Terminated(c) && o < |c| && depth <= 1000 && Gives(ParseItems(c, o, depth), items, e)
    ensures items != [] && o < e <= |c| && c[e - 1] == ']' && Elements(c, o, e - 1, items, 1000 - depth)
    decreases |c| - o, 5
  {
    var at, rest := ItemsRound(c, o, depth, items, e);
    SkippedIsBlank(c, o);
    ParsedIsSpelled(c, at.value, depth);
    SkippedIsBlank(c, at.end);
    if c[at.comma] == ',' {
      ItemsAreSpelled(c, at.comma + 1, depth, rest, e);
    }
    ItemsCons(c, o, e - 1, at, items[0], rest, 1000 - depth);
  }

  lemma {:induction false} ObjectIsSpelled(c: seq<char>, o: nat, depth: nat, v: JSON, e: nat)
    requires Terminated(c) && o < |c| && c[o] == '{' && depth <= 1000 && Gives(ParseObject(c, o, depth), v, e)
    ensures Spells(c, o, e, v, 1000 - depth)
    decreases |c| - o, 2
  {
    var p := SkipSpace(c, o + 1);
    SkippedIsBlank(c, o + 1);
    if c[p] != '}' {
      var ms := ParseMembers(c, p, depth + 1).value;
      MembersAreSpelled(c, p, depth + 1, ms.0, ms.1);
      WiderMembers(c, o + 1, p, ms.1 - 1, ms.0, 1000 - (depth + 1));
    }
  }

  lemma WiderMembers(c: seq<char>, o: nat, p: nat, q: nat, ms: seq<Member>, left: nat)
    requires Terminated(c) && Blank(c, o, p) && Members(c, p, q, ms, left)
    ensures Members(c, o, q, ms, left)
  {
    var at: Place :| MembersAt(c, p, q, ms, at, left);
    BlankJoins(c, o, p, at.start);
    assert MembersAt(c, o, q, ms, at, left);
  }

  /** One round of the member loop. */
  lemma MembersRound(c: seq<char>, o: nat, depth: nat, ms: seq<Member>, e: nat) returns (at: Place, rest: seq<Member>)
    requires Terminated(c) && o < |c| && depth <= 1000 && Gives(ParseMembers(c, o, depth), ms, e)
    ensures ms != [] && ms == [ms[0]] + rest
    ensures o <= at.value < at.end <= at.comma < |c| && Named(c, o, at, ms[0].key)
    ensures Gives(ParseValue(c, at.value, depth), ms[0].value, at.end) && at.comma == SkipSpace(c, at.end)
    ensures if c[at.comma] == ',' then at.comma + 1 < |c| && Gives(ParseMembers(c, at.comma + 1, depth), rest, e)
            else c[at.comma] == '}' && rest == [] && e == at.comma + 1
  {
    var m := ParseMember(c, o, depth).value;
    at := MemberRound(c, o, depth, m.0, m.1);
    assert Ends(c, at.comma) <==> at.comma == |c| - 1;
    rest := ms[1..];
  }

  lemma MemberRound(c: seq<char>, o: nat, depth: nat, m: Member, end: nat) returns (at: Place)
    requires Terminated(c) && o < |c| && depth <= 1000 && Gives(ParseMember(c, o, depth), m, end)
    ensures o <= at.value < at.end == end <= at.comma < |c| && Named(c, o, at, m.key)
    ensures Gives(ParseValue(c, at.value, depth), m.value, at.end) && at.comma == SkipSpace(c, at.end)
  {
    var start := SkipSpace(c, o);
    assert ParseMember(c, o, depth) == ParseQuoted(c, start, depth) == ParseNamed(c, start, depth);
    var name := ParseString(c, start).value;
    var colon := SkipSpace(c, name.1);
    assert Ends(c, colon) <==> colon == |c| - 1;
    var value := SkipSpace(c, colon + 1);
    assert ParseElement(c, colon + 1, depth) == ParseValue(c, value, depth);
    SkippedIsBlank(c, o);
    SkippedIsBlank(c, name.1);
    SkippedIsBlank(c, colon + 1);
    at := Place(start, name.1, colon, value, end, SkipSpace(c, end));
  }

  lemma MembersCons(c: seq<char>, o: nat, q: nat, at: Place, m: Member, rest: seq<Member>, left: nat)
    requires Terminated(c) && Named(c, o, at, m.key) && Spells(c, at.value, at.end, m.value, left)
    requires if rest == [] then Blank(c, at.end, q)
             else Mark(c, at.end, at.comma, ',') && Members(c, at.comma + 1, q, rest, left)
    ensures Members(c, o, q, [m] + rest, left)
  {
    var ms := [m] + rest;
    assert ms[1..] == rest;
    assert MembersAt(c, o, q, ms, at, left);
  }

  /** The member loop, through the closing brace. */
  lemma {:induction false} MembersAreSpelled(c: seq<char>, o: nat, depth: nat, ms: seq<Member>, e: nat)
    requires Terminated(c) && o < |c| && depth <= 1000 && Gives(ParseMembers(c, o, depth), ms, e)
    ensures ms != [] && o < e <= |c| && c[e - 1] == '}' && Members(c, o, e - 1, ms, 1000 - depth)
    decreases |c| - o, 8
  {
    var at, rest := MembersRound(c, o, depth, ms, e);
    ParsedIsSpelled(c, at.value, depth);
    SkippedIsBlank(c, at.end);
    if c[at.comma] == ',' {
      MembersAreSpelled(c, at.comma + 1, depth, rest, e);
    }
    MembersCons(c, o, e - 1, at, ms[0], rest, 1000 - depth);
  }

  // ---------- what is spelled is parsed ----------

  lemma NoWord(c: seq<char>, o: nat, word: CStr)
    requires o < |c| && word != [] && c[o] != word[0]
    ensures !LooksAt(c, o, word)
  {
    if LooksAt(c, o, word) {
      LooksByte(c, o, word, 0);
    }
  }

  /** The branch that the first byte decides, where there is no word. */
  lemma ByFirst(c: seq<char>, o: nat, depth: nat)
    requires Terminated(c) && o < |c| && depth <= 1000 && c[o] != 'n' && c[o] != 'f' && c[o] != 't'
    ensures ParseValue(c, o, depth) == ParseByFirst(c, o, depth)
  {
    NoWord(c, o, "null");
    NoWord(c, o, "false");
    NoWord(c, o, "true");
  }

  /** Whatever is spelled is parsed, to the end of its spelling. */
  lemma {:induction false} SpelledIsParsed(c: seq<char>, o: nat, e: nat, v: JSON, left: nat)
    requires Terminated(c) && left <= 1000 && Spells(c, o, e, v, left)
    ensures Gives(ParseValue(c, o, 1000 - left), v, e)
    decreases v, 1
  {
    match v
    case Null =>
    case False =>
      WordStarts(c, o, e, "false");
      NoWord(c, o, "null");
    case True =>
      WordStarts(c, o, e, "true");
      NoWord(c, o, "null");
      NoWord(c, o, "false");
    case Number(_) => ByFirst(c, o, 1000 - left);
    case String(s) => ByFirst(c, o, 1000 - left);
    case Array(items) =>
      ByFirst(c, o, 1000 - left);
      ArrayIsParsed(c, o, e, items, left);
    case Object(ms) =>
      ByFirst(c, o, 1000 - left);
      ObjectIsParsed(c, o, e, ms, left);
  }

  lemma {:induction false} ArrayIsParsed(c: seq<char>, o: nat, e: nat, items: seq<JSON>, left: nat)
    requires Terminated(c) && left <= 1000 && Spells(c, o, e, Array(items), left)
    ensures Gives(ParseArray(c, o, 1000 - left), Array(items), e)
    decreases items, 3
  {
    if items == [] {
      SkipReaches(c, o + 1, e - 1);
    } else {
      var at: Place :| ElementsAt(c, o + 1, e - 1, items, at, left - 1);
      SpelledStarts(c, at.value, at.end, items[0], left - 1);
      SkipReaches(c, o + 1, at.value);
      assert ElementsAt(c, at.value, e - 1, items, at, left - 1);
      ItemsAreParsed(c, at.value, e - 1, items, left - 1);
    }
  }

  /** What the element loop makes of its first value and what stands behind it. */
  lemma ItemsFrom(c: seq<char>, p: nat, depth: nat, items: seq<JSON>, start: nat, end: nat, k: nat, e: nat)
    requires Terminated(c) && p < |c| && depth <= 1000 && items != [] && SkipSpace(c, p) == start < |c|
    requires Gives(ParseValue(c, start, depth), items[0], end) && end < |c| && SkipSpace(c, end) == k
    requires if |items| == 1 then c[k] == ']' && e == k + 1
             else c[k] == ',' && k + 1 < |c| && Gives(ParseItems(c, k + 1, depth), items[1..], e)
    ensures Gives(ParseItems(c, p, depth), items, e)
  {
    assert ParseElement(c, p, depth) == ParseValue(c, start, depth);
    assert items == [items[0]] + items[1..] && (|items| == 1 ==> items == [items[0]]);
  }

  lemma {:induction false} ItemsAreParsed(c: seq<char>, p: nat, q: nat, items: seq<JSON>, left: nat)
    requires Terminated(c) && left <= 1000 && Elements(c, p, q, items, left) && q < |c| && c[q] == ']'
    ensures p < |c| && Gives(ParseItems(c, p, 1000 - left), items, q + 1)
    decreases items, 2
  {
    var at: Place :| ElementsAt(c, p, q, items, at, left);
    SpelledStarts(c, at.value, at.end, items[0], left);
    SkipReaches(c, p, at.value);
    SpelledIsParsed(c, at.value, at.end, items[0], left);
    var k := if |items| == 1 then q else at.comma;
    SkipReaches(c, at.end, k);
    if |items| > 1 {
      ItemsAreParsed(c, k + 1, q, items[1..], left);
    }
    ItemsFrom(c, p, 1000 - left, items, at.value, at.end, k, q + 1);
  }

  lemma {:induction false} ObjectIsParsed(c: seq<char>, o: nat, e: nat, ms: seq<Member>, left: nat)
    requires Terminated(c) && left <= 1000 && Spells(c, o, e, Object(ms), left)
    ensures Gives(ParseObject(c, o, 1000 - left), Object(ms), e)
    decreases ms, 3
  {
    if ms == [] {
      SkipReaches(c, o + 1, e - 1);
    } else {
      var at: Place :| MembersAt(c, o + 1, e - 1, ms, at, left - 1);
      SkipReaches(c, o + 1, at.start);
      assert MembersAt(c, at.start, e - 1, ms, at, left - 1);
      MembersAreParsed(c, at.start, e - 1, ms, left - 1);
    }
  }

  lemma MemberFrom(c: seq<char>, p: nat, depth: nat, at: Place, m: Member)
    requires Terminated(c) && p < |c| && depth <= 1000 && Named(c, p, at, m.key)
    requires at.value < |c| && c[at.value] as int > 32 && Gives(ParseValue(c, at.value, depth), m.value, at.end)
    ensures Gives(ParseMember(c, p, depth), m, at.end)
  {
    SkipReaches(c, p, at.start);
    SkipReaches(c, at.name, at.colon);
    SkipReaches(c, at.colon + 1, at.value);
    assert ParseElement(c, at.colon + 1, depth) == ParseValue(c, at.value, depth);
    assert Gives(ParseNamed(c, at.start, depth), m, at.end);
    assert ParseQuoted(c, at.start, depth) == ParseNamed(c, at.start, depth);
  }

  lemma MembersFrom(c: seq<char>, p: nat, depth: nat, ms: seq<Member>, end: nat, k: nat, e: nat)
    requires Terminated(c) && p < |c| && depth <= 1000 && ms != []
    requires Gives(ParseMember(c, p, depth), ms[0], end) && end < |c| && SkipSpace(c, end) == k
    requires if |ms| == 1 then c[k] == '}' && e == k + 1
             else c[k] == ',' && k + 1 < |c| && Gives(ParseMembers(c, k + 1, depth), ms[1..], e)
    ensures Gives(ParseMembers(c, p, depth), ms, e)
  {
    assert ms == [ms[0]] + ms[1..] && (|ms| == 1 ==> ms == [ms[0]]);
  }

  lemma {:induction false} MembersAreParsed(c: seq<char>, p: nat, q: nat, ms: seq<Member>, left: nat)
    requires Terminated(c) && left <= 1000 && Members(c, p, q, ms, left) && q < |c| && c[q] == '}'
    ensures p < |c| && Gives(ParseMembers(c, p, 1000 - left), ms, q + 1)
    decreases ms, 2
  {
    var end, k := FirstIsParsed(c, p, q, ms, left);
    if |ms| > 1 {
      MembersAreParsed(c, k + 1, q, ms[1..], left);
    }
    MembersFrom(c, p, 1000 - left, ms, end, k, q + 1);
  }

  lemma {:induction false} FirstIsParsed(c: seq<char>, p: nat, q: nat, ms: seq<Member>, left: nat)
    returns (end: nat, k: nat)
    requires Terminated(c) && left <= 1000 && Members(c, p, q, ms, left) && q < |c| && c[q] == '}'
    ensures p < |c| && Gives(ParseMember(c, p, 1000 - left), ms[0], end) && end < |c| && SkipSpace(c, end) == k
    ensures if |ms| == 1 then k == q else c[k] == ',' && k + 1 < |c| && Members(c, k + 1, q, ms[1..], left)
    decreases ms, 1
  {
    var at: Place :| MembersAt(c, p, q, ms, at, left);
    MemberIsParsed(c, p, at, ms[0], left);
    end, k := at.end, if |ms| == 1 then q else at.comma;
    SkipReaches(c, end, k);
    assert Ends(c, k) <==> k == |c| - 1;
  }

  lemma {:induction false} MemberIsParsed(c: seq<char>, p: nat, at: Place, m: Member, left: nat)
    requires Terminated(c) && left <= 1000 && Named(c, p, at, m.key) && Spells(c, at.value, at.end, m.value, left)
    ensures p < |c| && at.end < |c| && Gives(ParseMember(c, p, 1000 - left), m, at.end)
    decreases m, 4
  {
    SpelledStarts(c, at.value, at.end, m.value, left);
    SpelledIsParsed(c, at.value, at.end, m.value, left);
    MemberFrom(c, p, 1000 - left, at, m);
  }

  // ---------- the parser is the grammar ----------

  /** At every position and depth, parse_value returns a value and an end exactly if it is spelled up to there. */
  lemma ValueIff(c: seq<char>, o: nat, depth: nat, v: JSON, e: nat)
    requires Terminated(c) && o < |c| && depth <= 1000
    ensures ParseValue(c, o, depth) == Some((v, e)) <==> Spells(c, o, e, v, 1000 - depth)
  {
    ParsedIsSpelled(c, o, depth);
    if Spells(c, o, e, v, 1000 - depth) {
      SpelledIsParsed(c, o, e, v, 1000 - depth);
    }
  }

  /** Behind the byte order mark, which has to be followed by something. */
  function Start(c: seq<char>): nat {
    if |c| > 4 && c[0] as int == 0xEF && c[1] as int == 0xBB && c[2] as int == 0xBF then 3 else 0
  }

  /** A value somewhere in a text, with white space in front of it and, if the end is required, behind it. */
  ghost predicate TextAt(c: seq<char>, o: nat, e: nat, v: JSON, requireEnd: bool)
    requires Terminated(c)
  {
    && Blank(c, Start(c), o) && Spells(c, o, e, v, 1000) && (requireEnd ==> Blank(c, e, |c| - 1))
  }

  /**
   cJSON_ParseWithOpts returns a document exactly for the texts the grammar derives it from, nested at most 1000 deep;
   what stands behind it counts only if the end is required.
   */
  lemma TextIff(text: CStr, requireEnd: bool, v: JSON)
    ensures Terminated(text + ['\0'])
    ensures ParseText(text, requireEnd) == Some(v) <==> exists o, e :: TextAt(text + ['\0'], o, e, v, requireEnd)
  {
    TextTerminated(text);
    if ParseText(text, requireEnd) == Some(v) {
      var o, e := ParsedText(text, requireEnd, v);
    }
    if o, e :| TextAt(text + ['\0'], o, e, v, requireEnd) {
      SpelledText(text, requireEnd, v, o, e);
    }
  }

  lemma TextTerminated(text: CStr)
    ensures Terminated(text + ['\0'])
  {
    var c := text + ['\0'];
    forall i | 0 <= i < |c| ensures Ends(c, i) <==> i == |c| - 1 {
      if i < |text| { assert c[i] == text[i] && text[i] != '\0'; }
    }
  }

  lemma ParsedText(text: CStr, requireEnd: bool, v: JSON) returns (o: nat, e: nat)
    requires Terminated(text + ['\0']) && ParseText(text, requireEnd) == Some(v)
    ensures TextAt(text + ['\0'], o, e, v, requireEnd)
  {
    var c := text + ['\0'];
    o := SkipSpace(c, AfterBom(c));
    SkippedIsBlank(c, AfterBom(c));
    e := ParseValue(c, o, 0).value.1;
    ValueIff(c, o, 0, v, e);
    EndIsBlank(c, e);
  }

  lemma SpelledText(text: CStr, requireEnd: bool, v: JSON, o: nat, e: nat)
    requires Terminated(text + ['\0']) && TextAt(text + ['\0'], o, e, v, requireEnd)
    ensures ParseText(text, requireEnd) == Some(v)
  {
    var c := text + ['\0'];
    SpelledStarts(c, o, e, v, 1000);
    SkipReaches(c, AfterBom(c), o);
    ValueIff(c, o, 0, v, e);
    EndIsBlank(c, e);
  }

  /** Skipping ends on the terminator exactly if only white space is left. */
  lemma EndIsBlank(c: seq<char>, e: nat)
    requires Terminated(c) && e < |c|
    ensures c[SkipSpace(c, e)] == '\0' <==> Blank(c, e, |c| - 1)
  {
    var k := SkipSpace(c, e);
    SkippedIsBlank(c, e);
    RunStops(c, e);
    assert Ends(c, k) <==> k == |c| - 1;
  }
}
