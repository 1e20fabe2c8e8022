/** The call-expression parser, the function registry and the dispatcher of
    function_ops.py. The executor model replies with one call expression such
    as `ai_get_file_list(path='un_organized')`; `ParseFunctionCall` turns it
    into a name and a dictionary of typed values, and `ExecuteFunction` looks
    the name up in the registry filled by `LoadFunctionsFromDirectory` and calls
    it with the declared parameters only. */
module FunctionOps {
  import opened Text

  // ---------------------------------------------------------------------
  // Argument values and their coercion (function_ops.py:137-157)
  // ---------------------------------------------------------------------

  /** What an argument value becomes: a string, a bool, None, an int, or a
      float (kept as its text). */
  datatype Value = Str(s: string) | Bool(b: bool) | NoneValue | Int(n: nat) | Float(text: string)

  predicate IsQuote(c: char) { c == '"' || c == '\'' }

  /** Starts and ends with the same quote character (one character suffices). */
  predicate Quoted(v: string) {
    |v| >= 1 && IsQuote(v[0]) && v[|v| - 1] == v[0]
  }

  /** `value[1:-1]`, which is empty for a one-character value. */
  function Unquote(v: string): string {
    if |v| >= 2 then v[1..|v| - 1] else ""
  }

  /** `s.replace(c, '', 1)`. */
  function RemoveFirst(s: string, c: char): string {
    match IndexOf(s, c)
    case None => s
    case Some(i) => s[..i] + s[i + 1..]
  }

  /** `value.replace('.', '', 1).isdigit()`: digits with at most one dot,
      and at least one digit. */
  predicate IsNumber(v: string) {
    var d := RemoveFirst(v, '.');
    d != [] && AllDigits(d)
  }

  /** CPython's default limit on the digits `int(str)` converts (3.11 and
      later); a longer digit string raises `ValueError`. */
  const IntMaxStrDigits: nat := 4300

  /** The coercion chain applied to each stripped value. An `int` conversion
      that raises is caught, leaving the text as it was. */
  function Coerce(v: string): Value {
    if Quoted(v) then Str(Unquote(v))
    else if Lower(v) == "true" then Bool(true)
    else if Lower(v) == "false" then Bool(false)
    else if Lower(v) == "none" then NoneValue
    else if IsNumber(v) then
      if '.' in v then Float(v)
      else if |v| <= IntMaxStrDigits then Int(DecimalValue(v))
      else Str(v)
    else Str(v)
  }

  /** Python source text for a value, as the executor model is asked to write it. */
  function Literal(x: Value): string {
    match x
    case Str(s) => "'" + s + "'"
    case Bool(b) => if b then "True" else "False"
    case NoneValue => "None"
    case Int(n) => NatToString(n)
    case Float(t) => t
  }

  lemma NumberChars(t: string)
    requires IsNumber(t)
    ensures forall i :: 0 <= i < |t| ==> IsDigit(t[i]) || t[i] == '.'
  {
    match IndexOf(t, '.')
    case None =>
    case Some(p) =>
      var d := t[..p] + t[p + 1..];
      forall i | 0 <= i < |t| ensures IsDigit(t[i]) || t[i] == '.' {
        if i < p { assert t[i] == d[i]; } else if i > p { assert t[i] == d[i - 1]; }
      }
  }

  /** Coercion undoes rendering: every value written as a literal reads back
      as itself (a float literal being digits with one dot, an int literal
      within the digit limit), and a string may be written in either quote. */
  lemma CoerceLiteral(x: Value)
    requires x.Float? ==> IsNumber(x.text) && '.' in x.text
    requires x.Int? ==> |NatToString(x.n)| <= IntMaxStrDigits
    ensures Coerce(Literal(x)) == x
    ensures x.Str? ==> Coerce("\"" + x.s + "\"") == x
  {
    match x
    case Str(s) => CoerceQuoted('\'', s); CoerceQuoted('"', s);
    case Bool(b) => CoerceBoolLiteral(b);
    case NoneValue => CoerceNoneLiteral();
    case Int(n) => CoerceIntLiteral(n);
    case Float(t) => CoerceFloatLiteral(t);
  }

  /** Either quote character around any text gives that text. */
  lemma CoerceQuoted(q: char, s: string)
    requires IsQuote(q)
    ensures Coerce([q] + s + [q]) == Str(s)
  {
    var v := [q] + s + [q];
    assert Quoted(v) && v[1..|v| - 1] == s;
  }

  lemma CoerceBoolLiteral(b: bool)
    ensures Coerce(Literal(Bool(b))) == Bool(b)
  {
    if b {
      var v := "True";
      assert !Quoted(v);
      assert forall i :: 0 <= i < 4 ==> Lower(v)[i] == "true"[i];
      assert Lower(v) == "true";
    } else {
      var v := "False";
      assert !Quoted(v);
      assert forall i :: 0 <= i < 5 ==> Lower(v)[i] == "false"[i];
      assert Lower(v) == "false";
      assert |Lower(v)| != |"true"|;
    }
  }

  lemma CoerceNoneLiteral()
    ensures Coerce(Literal(NoneValue)) == NoneValue
  {
    var v := "None";
    assert !Quoted(v);
    assert forall i :: 0 <= i < 4 ==> Lower(v)[i] == "none"[i];
    assert Lower(v) == "none";
    assert Lower(v)[0] != 't' && |Lower(v)| != |"false"|;
  }

  lemma CoerceIntLiteral(n: nat)
    requires |NatToString(n)| <= IntMaxStrDigits
    ensures Coerce(Literal(Int(n))) == Int(n)
  {
    var r := NatToString(n);
    assert !Quoted(r) by { assert IsDigit(r[0]); }
    assert Lower(r)[0] == r[0];
    assert '.' !in r;
    assert RemoveFirst(r, '.') == r;
    DecimalRoundTrip(n);
  }

  lemma CoerceFloatLiteral(t: string)
    requires IsNumber(t) && '.' in t
    ensures Coerce(Literal(Float(t))) == Float(t)
  {
    NumberChars(t);
    assert !Quoted(t) by { assert IsDigit(t[0]) || t[0] == '.'; }
    assert Lower(t)[0] == t[0];
  }

  /** A digit string, zero-padded or not, is an int when it is within the
      digit limit and stays the raw string when it is longer. */
  lemma CoerceDigits(v: string)
    requires v != [] && AllDigits(v)
    ensures |v| <= IntMaxStrDigits ==> Coerce(v) == Int(DecimalValue(v))
    ensures |v| > IntMaxStrDigits ==> Coerce(v) == Str(v)
  {
    var l := Lower(v);
    assert l[0] == v[0] && IsDigit(l[0]);
    assert l != "true" && l != "false" && l != "none";
    assert !Quoted(v);
    assert '.' !in v;
    assert RemoveFirst(v, '.') == v;
  }

  /** Leading zeros do not change the value: `int('007') == 7`. */
  lemma CoerceZeroPadded(k: nat, n: nat)
    requires k + |NatToString(n)| <= IntMaxStrDigits
    ensures Coerce(seq(k, _ => '0') + NatToString(n)) == Int(n)
  {
    var z: string := seq(k, _ => '0');
    var r := NatToString(n);
    ZerosValue(z, r);
    assert DecimalValue(z + r) == n by { DecimalRoundTrip(n); }
    assert Coerce(z + r) == Int(DecimalValue(z + r)) by { CoerceDigits(z + r); }
  }

  lemma {:induction false} ZerosValue(z: string, r: string)
    requires forall i :: 0 <= i < |z| ==> z[i] == '0'
    requires AllDigits(r)
    ensures AllDigits(z + r) && DecimalValue(z + r) == DecimalValue(r)
    decreases |r|
  {
    assert forall i :: 0 <= i < |z + r| ==> (z + r)[i] == (if i < |z| then z[i] else r[i - |z|]);
    if r == [] {
      assert z + r == z;
      ZerosOnly(z);
    } else {
      var r' := r[..|r| - 1];
      assert (z + r)[..|z + r| - 1] == z + r';
      ZerosValue(z, r');
    }
  }

  lemma {:induction false} ZerosOnly(z: string)
    requires forall i :: 0 <= i < |z| ==> z[i] == '0'
    ensures AllDigits(z) && DecimalValue(z) == 0
    decreases |z|
  {
    if z != [] {
      ZerosOnly(z[..|z| - 1]);
    }
  }

  /** Anything that is not a quoted string, a bool, None or a number stays
      the raw text: a bare word such as `null` or `path` is a string. */
  lemma CoerceWord(v: string)
    requires IsIdentifier(v) && !AllDigits(v)
    requires Lower(v) != "true" && Lower(v) != "false" && Lower(v) != "none"
    ensures Coerce(v) == Str(v)
  {
    assert !Quoted(v) by { assert IsWordChar(v[0]); }
    if IsNumber(v) {
      NumberChars(v);
    }
  }

  /** A value is None exactly when it reads `none` in any letter case: `null`
      and `NULL` stay strings. */
  lemma CoerceNoneIff(v: string)
    ensures Coerce(v) == NoneValue <==> Lower(v) == "none"
  {
    if Quoted(v) {
      assert Lower(v)[0] == v[0];
    }
  }

  /** A value is a bool exactly when it reads `true` or `false` in any letter case. */
  lemma CoerceBoolIff(v: string, b: bool)
    ensures Coerce(v) == Bool(b) <==> Lower(v) == (if b then "true" else "false")
  {
    if Quoted(v) {
      assert Lower(v)[0] == v[0];
    }
  }

  /** A sign is not a digit: `-3` stays the string `-3`. */
  lemma CoerceSignedStaysString(v: string)
    requires |v| >= 1 && v[0] == '-'
    ensures Coerce(v) == Str(v)
  {
    assert Lower(v)[0] == '-';
    if IsNumber(v) {
      NumberChars(v);
    }
  }

  // ---------------------------------------------------------------------
  // Quote-aware splitting on commas (function_ops.py:106-128)
  // ---------------------------------------------------------------------

  /** Whether the scan is inside a quoted string, and which quote opened it. */
  datatype QuoteState = Outside | Inside(quote: char)

  /** One character of the scan: a quote opens a string when outside, and
      closes it only when it is the character that opened it. */
  function Step(st: QuoteState, c: char): (r: QuoteState)
    ensures st.Outside? ==> r == (if IsQuote(c) then Inside(c) else Outside)
    ensures st.Inside? && c != st.quote ==> r == st
    ensures st.Inside? && IsQuote(st.quote) && c == st.quote ==> r == Outside
  {
    if !IsQuote(c) then st
    else match st
      case Outside => Inside(c)
      case Inside(q) => if c == q then Outside else st
  }

  /** The quote state after scanning `s` from state `st`. */
  function Scan(st: QuoteState, s: string): QuoteState
    decreases |s|
  {
    if s == [] then st else Scan(Step(st, s[0]), s[1..])
  }

  /** The text between top-level commas, unstripped; always at least one
      piece (the last one may be empty). */
  function Fragments(s: string, st: QuoteState): (r: seq<string>)
    ensures |r| >= 1
    decreases |s|
  {
    if s == [] then [""]
    else if s[0] == ',' && st.Outside? then [""] + Fragments(s[1..], st)
    else
      var t := Fragments(s[1..], Step(st, s[0]));
      [[s[0]] + t[0]] + t[1..]
  }

  /** The pieces of `a` followed by those of `b`, the last piece of `a`
      running on into the first piece of `b`. */
  function Glue(fa: seq<string>, fb: seq<string>): (r: seq<string>)
    requires |fa| >= 1 && |fb| >= 1
    ensures |r| == |fa| + |fb| - 1
  {
    fa[..|fa| - 1] + [fa[|fa| - 1] + fb[0]] + fb[1..]
  }

  lemma GlueEmpty(fb: seq<string>)
    requires |fb| >= 1
    ensures Glue([""], fb) == fb
  {
    assert [""][..0] == [];
    assert "" + fb[0] == fb[0];
    assert [fb[0]] + fb[1..] == fb;
  }

  lemma GlueSep(fa: seq<string>, fb: seq<string>)
    requires |fa| >= 1 && |fb| >= 1
    ensures Glue([""] + fa, fb) == [""] + Glue(fa, fb)
  {
    var x := [""] + fa;
    assert x[..|x| - 1] == [""] + fa[..|fa| - 1];
    assert x[|x| - 1] == fa[|fa| - 1];
  }

  lemma GlueCons(c: char, fa: seq<string>, fb: seq<string>)
    requires |fa| >= 1 && |fb| >= 1
    ensures var g := Glue(fa, fb);
            Glue([[c] + fa[0]] + fa[1..], fb) == [[c] + g[0]] + g[1..]
  {
    var x := [[c] + fa[0]] + fa[1..];
    var g := Glue(fa, fb);
    if |fa| == 1 {
      assert x == [[c] + fa[0]];
      assert g == [fa[0] + fb[0]] + fb[1..];
      assert g[1..] == fb[1..];
      assert [c] + fa[0] + fb[0] == [c] + (fa[0] + fb[0]);
    } else {
      assert x[..|x| - 1] == [[c] + fa[0]] + fa[1..|fa| - 1];
      assert x[|x| - 1] == fa[|fa| - 1];
      assert g[0] == fa[0];
      assert g[1..] == fa[1..|fa| - 1] + [fa[|fa| - 1] + fb[0]] + fb[1..];
    }
  }

  lemma GlueSplit(fa: seq<string>, fb: seq<string>)
    requires |fa| >= 1
    ensures Glue(fa, [""] + fb) == fa + fb
  {
    var y := [""] + fb;
    assert y[0] == "" && y[1..] == fb;
    assert fa[|fa| - 1] + "" == fa[|fa| - 1];
    assert fa[..|fa| - 1] + [fa[|fa| - 1]] == fa;
  }

  lemma {:induction false} ScanAppend(st: QuoteState, a: string, b: string)
    ensures Scan(st, a + b) == Scan(Scan(st, a), b)
    decreases |a|
  {
    if a != [] {
      assert (a + b)[0] == a[0] && (a + b)[1..] == a[1..] + b;
      ScanAppend(Step(st, a[0]), a[1..], b);
    } else {
      assert a + b == b;
    }
  }

  /** The pieces of a concatenation: the last piece of `a` runs on into the
      first piece of `b`, which is scanned from the state `a` leaves. */
  lemma {:induction false} FragmentsAppend(a: string, b: string, st: QuoteState)
    ensures Fragments(a + b, st) == Glue(Fragments(a, st), Fragments(b, Scan(st, a)))
    decreases |a|
  {
    if a == [] {
      assert a + b == b;
      GlueEmpty(Fragments(b, st));
    } else {
      assert (a + b)[0] == a[0] && (a + b)[1..] == a[1..] + b;
      assert Scan(st, a) == Scan(Step(st, a[0]), a[1..]);
      if a[0] == ',' && st.Outside? {
        assert Step(st, a[0]) == st;
        FragmentsAppend(a[1..], b, st);
        assert Fragments(a + b, st) == [""] + Fragments(a[1..] + b, st);
        assert Fragments(a, st) == [""] + Fragments(a[1..], st);
        GlueSep(Fragments(a[1..], st), Fragments(b, Scan(st, a)));
      } else {
        FragmentsAppend(a[1..], b, Step(st, a[0]));
        var t := Fragments(a[1..] + b, Step(st, a[0]));
        assert Fragments(a + b, st) == [[a[0]] + t[0]] + t[1..];
        var u := Fragments(a[1..], Step(st, a[0]));
        assert Fragments(a, st) == [[a[0]] + u[0]] + u[1..];
        GlueCons(a[0], u, Fragments(b, Scan(st, a)));
      }
    }
  }

  lemma FragmentsOfChar(c: char, st: QuoteState)
    ensures Fragments([c], st) == if c == ',' && st.Outside? then ["", ""] else [[c]]
    ensures Scan(st, [c]) == Step(st, c)
  {
    assert [c][0] == c && [c][1..] == [];
    assert [c] + "" == [c] && [""][1..] == [];
  }

  /** One more character: a comma reached outside any quote starts a new
      piece, any other character extends the current one. */
  lemma FragmentsSnoc(p: string, c: char, st: QuoteState)
    ensures Scan(st, p + [c]) == Step(Scan(st, p), c)
    ensures var f := Fragments(p, st);
            Fragments(p + [c], st) ==
              if c == ',' && Scan(st, p).Outside? then f + [""]
              else f[..|f| - 1] + [f[|f| - 1] + [c]]
  {
    ScanAppend(st, p, [c]);
    FragmentsAppend(p, [c], st);
    FragmentsOfChar(c, Scan(st, p));
    var f := Fragments(p, st);
    if c == ',' && Scan(st, p).Outside? {
      GlueSplit(f, [""]);
    }
  }

  /** A comma reached outside any quote ends a piece. */
  lemma CommaOutsideSplits(a: string, b: string, st: QuoteState)
    requires Scan(st, a).Outside?
    ensures Fragments(a + "," + b, st) == Fragments(a, st) + Fragments(b, Outside)
  {
    assert a + "," + b == a + ("," + b);
    FragmentsAppend(a, "," + b, st);
    FragmentsComma(b);
    GlueSplit(Fragments(a, st), Fragments(b, Outside));
  }

  lemma FragmentsComma(b: string)
    ensures Fragments("," + b, Outside) == [""] + Fragments(b, Outside)
  {
    assert ("," + b)[0] == ',' && ("," + b)[1..] == b;
  }

  /** A comma reached inside a quote stays in the current piece. */
  lemma CommaInsideKept(a: string, b: string, st: QuoteState)
    requires Scan(st, a).Inside?
    ensures var fa := Fragments(a, st);
            var fb := Fragments(b, Scan(st, a));
            Fragments(a + "," + b, st) == fa[..|fa| - 1] + [fa[|fa| - 1] + "," + fb[0]] + fb[1..]
  {
    var inner := Scan(st, a);
    var fa := Fragments(a, st);
    var fb := Fragments(b, inner);
    var c := "," + b;
    calc {
      Fragments(a + "," + b, st);
      { assert a + "," + b == a + c; }
      Fragments(a + c, st);
      { FragmentsAppend(a, c, st); }
      Glue(fa, Fragments(c, inner));
      { FragmentsCommaInside(b, inner.quote); }
      Glue(fa, ["," + fb[0]] + fb[1..]);
      { GlueOne(fa, ",", fb); }
      fa[..|fa| - 1] + [fa[|fa| - 1] + "," + fb[0]] + fb[1..];
    }
  }

  /** Gluing onto pieces whose first one starts with `x`. */
  lemma GlueOne(fa: seq<string>, x: string, fb: seq<string>)
    requires |fa| >= 1 && |fb| >= 1
    ensures Glue(fa, [x + fb[0]] + fb[1..]) == fa[..|fa| - 1] + [fa[|fa| - 1] + x + fb[0]] + fb[1..]
  {
    var fc := [x + fb[0]] + fb[1..];
    assert fc[0] == x + fb[0] && fc[1..] == fb[1..];
    assert fa[|fa| - 1] + (x + fb[0]) == fa[|fa| - 1] + x + fb[0];
  }

  lemma FragmentsCommaInside(b: string, q: char)
    ensures var fb := Fragments(b, Inside(q));
            Fragments("," + b, Inside(q)) == ["," + fb[0]] + fb[1..]
  {
    assert ("," + b)[0] == ',' && ("," + b)[1..] == b;
    assert Step(Inside(q), ',') == Inside(q);
  }

  /** Inside a string opened by `q`, text without `q` neither splits nor
      changes the quote state. */
  lemma {:induction false} InsideUnsplit(s: string, q: char)
    requires q !in s
    ensures Fragments(s, Inside(q)) == [s]
    ensures Scan(Inside(q), s) == Inside(q)
  {
    if s != [] {
      assert q !in s[1..] by { assert forall i :: 0 <= i < |s| - 1 ==> s[1..][i] == s[i + 1]; }
      InsideUnsplit(s[1..], q);
      assert [s[0]] + s[1..] == s;
    }
  }

  /** A quote that is never closed takes the rest of the text into the
      current piece, whatever commas follow it. */
  lemma UnclosedQuoteAbsorbs(a: string, q: char, rest: string, st: QuoteState)
    requires IsQuote(q) && Scan(st, a).Outside? && q !in rest
    ensures var fa := Fragments(a, st);
            Fragments(a + [q] + rest, st) == fa[..|fa| - 1] + [fa[|fa| - 1] + [q] + rest]
  {
    assert a + [q] + rest == a + ([q] + rest);
    FragmentsAppend(a, [q] + rest, st);
    assert ([q] + rest)[0] == q && ([q] + rest)[1..] == rest;
    InsideUnsplit(rest, q);
    assert Fragments([q] + rest, Outside) == [[q] + rest];
    var fa := Fragments(a, st);
    assert fa[|fa| - 1] + ([q] + rest) == fa[|fa| - 1] + [q] + rest;
  }

  /** Nothing is lost: joining the pieces with commas gives the text back. */
  lemma {:induction false} FragmentsJoin(s: string, st: QuoteState)
    ensures Join(Fragments(s, st), ",") == s
    decreases |s|
  {
    if s != [] {
      if s[0] == ',' && st.Outside? {
        FragmentsJoin(s[1..], st);
        var t := Fragments(s[1..], st);
        assert ([""] + t)[1..] == t;
      } else {
        FragmentsJoin(s[1..], Step(st, s[0]));
        JoinConsHead([s[0]], Fragments(s[1..], Step(st, s[0])), ",");
      }
    }
  }

  function StripAll(ps: seq<string>): (r: seq<string>)
    ensures |r| == |ps|
  {
    seq(|ps|, i requires 0 <= i < |ps| => Strip(ps[i]))
  }

  /** `args_list` after the scan: each piece stripped, the final piece only
      when it is non-empty before stripping. */
  function ArgumentList(argsText: string): seq<string> {
    var f := Fragments(argsText, Outside);
    StripAll(f[..|f| - 1]) + (if f[|f| - 1] != "" then [Strip(f[|f| - 1])] else [])
  }

  // ---------------------------------------------------------------------
  // key=value fragments and the argument dictionary (function_ops.py:131-157)
  // ---------------------------------------------------------------------

  /** `arg.split('=', 1)` with both halves stripped; None when there is no `=`. */
  function KeyValue(arg: string): (r: Option<(string, string)>)
    ensures r.None? <==> '=' !in arg
  {
    match IndexOf(arg, '=')
    case None => None
    case Some(i) => Some((Strip(arg[..i]), Strip(arg[i + 1..])))
  }

  /** Only the first `=` separates key and value; later ones belong to the value. */
  lemma KeyValueFirstEquals(k: string, v: string)
    requires '=' !in k
    ensures KeyValue(k + "=" + v) == Some((Strip(k), Strip(v)))
  {
    var s := k + "=" + v;
    assert s[|k|] == '=';
    assert s[..|k|] == k && s[|k| + 1..] == v;
    IndexOfAt(s, '=', |k|);
  }

  /** The keyed entries of the fragments, in order, each value coerced;
      fragments without `=` contribute nothing. */
  function Entries(args: seq<string>): seq<(string, Value)>
    decreases |args|
  {
    if args == [] then []
    else
      Entries(args[..|args| - 1]) +
        match KeyValue(args[|args| - 1])
        case None => []
        case Some(kv) => [(kv.0, Coerce(kv.1))]
  }

  /** The dictionary built from `pairs` in order, a later key overwriting an earlier one. */
  function ToMap(pairs: seq<(string, Value)>): map<string, Value>
    decreases |pairs|
  {
    if pairs == [] then map[]
    else ToMap(pairs[..|pairs| - 1])[pairs[|pairs| - 1].0 := pairs[|pairs| - 1].1]
  }

  /** `args_dict` for the argument list. */
  function ArgsDict(args: seq<string>): map<string, Value> {
    ToMap(Entries(args))
  }

  /** The keys of the dictionary are exactly the keys of the pairs. */
  lemma {:induction false} ToMapKeys(pairs: seq<(string, Value)>, k: string)
    ensures k in ToMap(pairs) <==> exists j :: 0 <= j < |pairs| && pairs[j].0 == k
  {
    if pairs != [] {
      var init := pairs[..|pairs| - 1];
      ToMapKeys(init, k);
      if exists j :: 0 <= j < |init| && init[j].0 == k {
        var j :| 0 <= j < |init| && init[j].0 == k;
        assert pairs[j].0 == k;
      }
      if exists j :: 0 <= j < |pairs| && pairs[j].0 == k {
        var j :| 0 <= j < |pairs| && pairs[j].0 == k;
        if j < |init| { assert init[j].0 == k; }
      }
    }
  }

  /** A later duplicate key overwrites an earlier one: a key's value comes
      from the last pair with that key. */
  lemma {:induction false} ToMapLastWins(pairs: seq<(string, Value)>, j: nat)
    requires j < |pairs|
    requires forall j' :: j < j' < |pairs| ==> pairs[j'].0 != pairs[j].0
    ensures pairs[j].0 in ToMap(pairs) && ToMap(pairs)[pairs[j].0] == pairs[j].1
  {
    var init := pairs[..|pairs| - 1];
    if j < |pairs| - 1 {
      forall j' | j < j' < |init| ensures init[j'].0 != init[j].0 {
        assert init[j'] == pairs[j'];
      }
      ToMapLastWins(init, j);
    }
  }

  lemma ToMapSnoc(pairs: seq<(string, Value)>, x: (string, Value))
    ensures ToMap(pairs + [x]) == ToMap(pairs)[x.0 := x.1]
  {
    assert (pairs + [x])[..|pairs|] == pairs;
  }

  /** A fragment without `=` is dropped; one with `=` adds its stripped key
      and its coerced stripped value. */
  lemma EntriesSnoc(args: seq<string>, arg: string)
    ensures Entries(args + [arg]) == Entries(args) +
      if '=' in arg then [(KeyValue(arg).value.0, Coerce(KeyValue(arg).value.1))] else []
  {
    assert (args + [arg])[..|args|] == args;
  }

  // ---------------------------------------------------------------------
  // The call head and the argument span (function_ops.py:87-101)
  // ---------------------------------------------------------------------

  function WordLen(s: string): (n: nat)
    ensures n <= |s| && AllWord(s[..n])
    ensures n < |s| ==> !IsWordChar(s[n])
  {
    if s != [] && IsWordChar(s[0]) then
      var n := 1 + WordLen(s[1..]);
      assert s[..n] == [s[0]] + s[1..][..n - 1];
      n
    else 0
  }

  /** `re.match(r'(\w+)\s*\(', s).group(1)`, or None when it does not match. */
  function CallName(s: string): Option<string> {
    var n := WordLen(s);
    var k := n + SpaceLen(s[n..]);
    if n > 0 && k < |s| && s[k] == '(' then Some(s[..n]) else None
  }

  /** `s` begins with the identifier `name`, then whitespace up to index
      `k`, where an opening parenthesis stands. */
  ghost predicate CallHead(s: string, name: string, k: int) {
    |name| > 0 && AllWord(name) && |name| <= k < |s| && s[..|name|] == name
    && AllSpace(s[|name|..k]) && s[k] == '('
  }

  lemma {:induction false} WordLenOf(s: string, n: nat)
    requires n <= |s| && AllWord(s[..n]) && (n < |s| ==> !IsWordChar(s[n]))
    ensures WordLen(s) == n
  {
    if n > 0 {
      assert s[1..][..n - 1] == s[1..n];
      assert IsWordChar(s[..n][0]);
      WordLenOf(s[1..], n - 1);
    }
  }

  /** The name matches exactly when the text starts with an identifier,
      optional whitespace and `(`; leading whitespace or prose gives None. */
  lemma CallNameIff(s: string, name: string)
    ensures CallName(s) == Some(name) <==> exists k :: CallHead(s, name, k)
  {
    var n := WordLen(s);
    var k := n + SpaceLen(s[n..]);
    if CallName(s) == Some(name) {
      assert s[n..][..k - n] == s[n..k];
      assert CallHead(s, name, k);
    }
    if exists k' :: CallHead(s, name, k') {
      var k' :| CallHead(s, name, k');
      var m := |name|;
      assert s[..m] == name;
      assert !IsWordChar(s[m]) by {
        if k' == m { assert s[m] == '('; } else { assert s[m..k'][0] == s[m]; }
      }
      WordLenOf(s, m);
      var rest := s[m..];
      assert rest[..k' - m] == s[m..k'];
      SpaceLenOf(rest, k' - m);
    }
  }

  /** `re.search(r'\((.*)\)', s, re.DOTALL).group(1)`: the text between the
      first `(` and the last `)`, or None. */
  function ArgsSpan(s: string): Option<string> {
    match IndexOf(s, '(')
    case None => None
    case Some(p) =>
      match LastIndexOf(s, ')')
      case None => None
      case Some(q) => if p < q then Some(s[p + 1..q]) else None
  }

  /** A match of `\((.*)\)` from index `p` to index `q`. */
  predicate SpanAt(s: string, p: int, q: int) {
    0 <= p < q < |s| && s[p] == '(' && s[q] == ')'
  }

  /** Regex search semantics: the leftmost start, and for it the longest
      (greedy) match, is what `ArgsSpan` returns. */
  lemma ArgsSpanLeftmostLongest(s: string, p: int, q: int)
    requires SpanAt(s, p, q)
    requires forall p', q' :: SpanAt(s, p', q') ==> p <= p' && (p' == p ==> q' <= q)
    ensures ArgsSpan(s) == Some(s[p + 1..q])
  {
    var i := IndexOf(s, '(').value;
    var j := LastIndexOf(s, ')').value;
    if i < p {
      assert SpanAt(s, i, q);
    }
    if j > q {
      assert SpanAt(s, p, j);
    }
  }

  /** No argument span exactly when no `(` is followed by a `)`. */
  lemma ArgsSpanNone(s: string)
    ensures ArgsSpan(s).None? <==> forall p, q :: !SpanAt(s, p, q)
  {
    match IndexOf(s, '(')
    case None =>
    case Some(i) =>
      match LastIndexOf(s, ')')
      case None =>
      case Some(j) =>
        if i < j {
          assert SpanAt(s, i, j);
        } else {
          forall p, q | SpanAt(s, p, q) ensures false {
          }
        }
  }

  // ---------------------------------------------------------------------
  // parse_function_call (function_ops.py:76-163)
  // ---------------------------------------------------------------------

  /** What `parse_function_call` returns for `text`. */
  function ParseCall(text: string): (r: (Option<string>, map<string, Value>))
    ensures r.0 == CallName(text)
    ensures r.0.None? ==> r.1 == map[]
  {
    match CallName(text)
    case None => (None, map[])
    case Some(name) =>
      match ArgsSpan(text)
      case None => (Some(name), map[])
      case Some(span) =>
        var argsText := Strip(span);
        if argsText == [] then (Some(name), map[])
        else (Some(name), ArgsDict(ArgumentList(argsText)))
  }

  /** A call head with no `(` followed by a `)` parses to the name with no
      arguments. */
  lemma NoArgumentSpan(text: string, name: string)
    requires CallName(text) == Some(name)
    requires forall p, q :: !SpanAt(text, p, q)
    ensures ParseCall(text) == (Some(name), map[])
  {
    ArgsSpanNone(text);
  }

  /** So does a call whose argument span is only whitespace. */
  lemma BlankArgumentSpan(text: string, name: string, span: string)
    requires CallName(text) == Some(name) && ArgsSpan(text) == Some(span)
    requires AllSpace(span)
    ensures ParseCall(text) == (Some(name), map[])
  {
    StripOf(span, [], []);
    assert span + [] + [] == span;
  }

  /** `parse_function_call`: the name, then the argument span, then the two
      loops below. */
  method ParseFunctionCall(text: string) returns (name: Option<string>, args: map<string, Value>)
    ensures (name, args) == ParseCall(text)
  {
    name, args := None, map[];
    var head := CallName(text);
    if head.None? {
      return;
    }
    name := head;
    var span := ArgsSpan(text);
    if span.None? {
      return;
    }
    var argsText := Strip(span.value);
    if argsText == [] {
      return;
    }
    var argsList := SplitArguments(argsText);
    args := BuildArguments(argsList);
  }

  /** The scan after one more character, stated on the finished pieces and
      the piece being built. */
  lemma ScanOneMore(p: string, c: char, pieces: seq<string>, current: string)
    requires Fragments(p, Outside) == pieces + [current]
    ensures Scan(Outside, p + [c]) == Step(Scan(Outside, p), c)
    ensures c == ',' && Scan(Outside, p).Outside? ==>
              Fragments(p + [c], Outside) == (pieces + [current]) + [""]
    ensures !(c == ',' && Scan(Outside, p).Outside?) ==>
              Fragments(p + [c], Outside) == pieces + [current + [c]]
  {
    FragmentsSnoc(p, c, Outside);
    var f := pieces + [current];
    assert f[..|f| - 1] == pieces;
  }

  lemma StripAllSnoc(ps: seq<string>, p: string)
    ensures StripAll(ps + [p]) == StripAll(ps) + [Strip(p)]
  {
    assert forall i :: 0 <= i < |ps| ==> (ps + [p])[i] == ps[i];
  }

  /** One more fragment: without `=` it adds nothing, with `=` it sets its
      stripped key to its coerced stripped value. */
  lemma ArgsDictSnoc(args: seq<string>, arg: string)
    ensures ArgsDict(args + [arg]) ==
      match KeyValue(arg)
      case None => ArgsDict(args)
      case Some(kv) => ArgsDict(args)[kv.0 := Coerce(kv.1)]
  {
    EntriesSnoc(args, arg);
    var es := Entries(args);
    match KeyValue(arg)
    case None =>
      assert es + [] == es;
    case Some(kv) =>
      ToMapSnoc(es, (kv.0, Coerce(kv.1)));
  }

  /** The character loop of `parse_function_call`: tracks `in_string` and
      `quote_char`, and cuts `args_str` at top-level commas. */
  method SplitArguments(argsText: string) returns (argsList: seq<string>)
    ensures argsList == ArgumentList(argsText)
  {
    var inString := false;
    var quoteChar: Option<char> := None;
    var current := "";
    argsList := [];
    ghost var pieces: seq<string> := [];
    for i := 0 to |argsText|
      invariant inString <==> quoteChar.Some?
      invariant (if quoteChar.Some? then Inside(quoteChar.value) else Outside) == Scan(Outside, argsText[..i])
      invariant Fragments(argsText[..i], Outside) == pieces + [current]
      invariant argsList == StripAll(pieces)
    {
      var c := argsText[i];
      assert argsText[..i + 1] == argsText[..i] + [c];
      ScanOneMore(argsText[..i], c, pieces, current);
      StripAllSnoc(pieces, current);
      if c == '"' || c == '\'' {
        if !inString {
          inString := true;
          quoteChar := Some(c);
        } else if Some(c) == quoteChar {
          inString := false;
          quoteChar := None;
        }
        current := current + [c];
      } else if c == ',' && !inString {
        argsList := argsList + [Strip(current)];
        pieces := pieces + [current];
        current := "";
      } else {
        current := current + [c];
      }
    }
    assert argsText[..|argsText|] == argsText;
    assert (pieces + [current])[..|pieces|] == pieces;
    if current != "" {
      argsList := argsList + [Strip(current)];
    }
  }

  /** The dictionary loop of `parse_function_call`. */
  method BuildArguments(argsList: seq<string>) returns (args: map<string, Value>)
    ensures args == ArgsDict(argsList)
  {
    args := map[];
    for j := 0 to |argsList|
      invariant args == ArgsDict(argsList[..j])
    {
      var arg := argsList[j];
      assert argsList[..j + 1] == argsList[..j] + [arg];
      ArgsDictSnoc(argsList[..j], arg);
      if '=' in arg {
        var (key, value) := KeyValue(arg).value;
        args := args[key := Coerce(value)];
      }
    }
    assert argsList[..|argsList|] == argsList;
  }

  // ---------------------------------------------------------------------
  // Round trip: a call written with identifier keys and literal values
  // parses back to its name and its arguments
  // ---------------------------------------------------------------------

  predicate IsIdentifier(s: string) { s != [] && AllWord(s) }

  /** A value whose literal the parser reads back: a string without `'`
      (it is written in single quotes), a float written as digits and one dot,
      an int of at most `IntMaxStrDigits` digits. */
  predicate Renderable(x: Value) {
    match x
    case Str(s) => '\'' !in s
    case Float(t) => IsNumber(t) && '.' in t
    case Int(n) => |NatToString(n)| <= IntMaxStrDigits
    case _ => true
  }

  function Argument(k: string, x: Value): string {
    k + "=" + Literal(x)
  }

  function RenderArgs(pairs: seq<(string, Value)>): (r: seq<string>)
    ensures |r| == |pairs|
  {
    seq(|pairs|, i requires 0 <= i < |pairs| => Argument(pairs[i].0, pairs[i].1))
  }

  /** `name(k1=v1, k2=v2, ...)`. */
  function RenderCall(name: string, pairs: seq<(string, Value)>): string {
    name + "(" + Join(RenderArgs(pairs), ", ") + ")"
  }

  /** `s` is one piece and leaves the scan outside any quote. */
  predicate Atom(s: string) {
    Fragments(s, Outside) == [s] && Scan(Outside, s).Outside?
  }

  lemma {:induction false} PlainUnsplit(s: string, st: QuoteState)
    requires ',' !in s && '"' !in s && '\'' !in s
    ensures Fragments(s, st) == [s] && Scan(st, s) == st
  {
    if s != [] {
      assert forall i :: 0 <= i < |s| - 1 ==> s[1..][i] == s[i + 1];
      PlainUnsplit(s[1..], st);
      assert [s[0]] + s[1..] == s;
    }
  }

  lemma UnsplitAppend(a: string, b: string, st: QuoteState)
    requires Fragments(a, st) == [a]
    requires Fragments(b, Scan(st, a)) == [b]
    ensures Fragments(a + b, st) == [a + b]
    ensures Scan(st, a + b) == Scan(Scan(st, a), b)
  {
    FragmentsAppend(a, b, st);
    ScanAppend(st, a, b);
  }

  lemma LiteralShape(x: Value)
    requires Renderable(x)
    ensures Literal(x) != []
    ensures !IsSpace(Literal(x)[0]) && !IsSpace(Literal(x)[|Literal(x)| - 1])
    ensures !x.Str? ==> ',' !in Literal(x) && '"' !in Literal(x) && '\'' !in Literal(x)
  {
    match x
    case Str(s) =>
    case Bool(b) =>
    case NoneValue =>
    case Int(n) =>
      var r := NatToString(n);
      assert forall i :: 0 <= i < |r| ==> IsDigit(r[i]);
    case Float(t) =>
      NumberChars(t);
  }

  lemma StringLiteralAtom(s: string)
    requires '\'' !in s
    ensures Atom("'" + s + "'")
  {
    var q := "'";
    FragmentsOfChar('\'', Outside);
    FragmentsOfChar('\'', Inside('\''));
    InsideUnsplit(s, '\'');
    UnsplitAppend(q, s, Outside);
    UnsplitAppend(q + s, q, Outside);
  }

  lemma ArgumentAtom(k: string, x: Value)
    requires IsIdentifier(k) && Renderable(x)
    ensures Atom(Argument(k, x))
  {
    var key := k + "=";
    assert forall i :: 0 <= i < |key| ==> IsWordChar(key[i]) || key[i] == '=';
    PlainUnsplit(key, Outside);
    LiteralShape(x);
    if x.Str? {
      StringLiteralAtom(x.s);
    } else {
      PlainUnsplit(Literal(x), Outside);
    }
    UnsplitAppend(key, Literal(x), Outside);
  }

  /** The parser reads one rendered argument back as its key and value. */
  lemma ArgumentEntry(k: string, x: Value)
    requires IsIdentifier(k) && Renderable(x)
    ensures KeyValue(Argument(k, x)) == Some((k, Literal(x)))
    ensures Coerce(Literal(x)) == x
    ensures Argument(k, x) != [] && Trimmed(Argument(k, x))
  {
    var lit := Literal(x);
    LiteralShape(x);
    CoerceLiteral(x);
    ArgumentKeyValue(k, lit);
    var a := k + "=" + lit;
    assert a[0] == k[0] && a[|a| - 1] == lit[|lit| - 1];
    NoEqualsInWord(k);
  }

  lemma NoEqualsInWord(k: string)
    requires IsIdentifier(k)
    ensures '=' !in k && !IsSpace(k[0]) && !IsSpace(k[|k| - 1])
  {
    assert forall i :: 0 <= i < |k| ==> IsWordChar(k[i]);
  }

  lemma ArgumentKeyValue(k: string, lit: string)
    requires IsIdentifier(k) && lit != [] && !IsSpace(lit[0]) && !IsSpace(lit[|lit| - 1])
    ensures KeyValue(k + "=" + lit) == Some((k, lit))
  {
    NoEqualsInWord(k);
    KeyValueFirstEquals(k, lit);
    StripIdentity(k);
    StripIdentity(lit);
  }

  function Pad(ps: seq<string>): (r: seq<string>)
    ensures |r| == |ps|
  {
    seq(|ps|, i requires 0 <= i < |ps| => " " + ps[i])
  }

  /** Pieces joined by `, ` come back as the first piece and the others
      with their leading space. */
  lemma {:induction false} FragmentsOfJoin(ps: seq<string>)
    requires |ps| >= 1
    requires forall i :: 0 <= i < |ps| ==> Atom(ps[i])
    ensures Fragments(Join(ps, ", "), Outside) == [ps[0]] + Pad(ps[1..])
  {
    if |ps| > 1 {
      var rest := Join(ps[1..], ", ");
      assert Join(ps, ", ") == ps[0] + "," + (" " + rest);
      CommaOutsideSplits(ps[0], " " + rest, Outside);
      FragmentsOfJoin(ps[1..]);
      PlainUnsplit(" ", Outside);
      FragmentsAppend(" ", rest, Outside);
      var fr := Fragments(rest, Outside);
      assert fr == [ps[1]] + Pad(ps[2..]);
      assert Fragments(" " + rest, Outside) == [" " + fr[0]] + fr[1..];
      assert [" " + fr[0]] + fr[1..] == Pad(ps[1..]);
    }
  }

  lemma RenderArgsSnoc(pairs: seq<(string, Value)>)
    requires pairs != []
    ensures var n := |pairs|;
            RenderArgs(pairs) == RenderArgs(pairs[..n - 1]) + [Argument(pairs[n - 1].0, pairs[n - 1].1)]
  {
  }

  lemma EntriesSnocKeyed(args: seq<string>, arg: string, kv: (string, string))
    requires KeyValue(arg) == Some(kv)
    ensures Entries(args + [arg]) == Entries(args) + [(kv.0, Coerce(kv.1))]
  {
    assert (args + [arg])[..|args|] == args;
  }

  lemma {:induction false} EntriesOfRendered(pairs: seq<(string, Value)>)
    requires forall i :: 0 <= i < |pairs| ==> IsIdentifier(pairs[i].0) && Renderable(pairs[i].1)
    ensures Entries(RenderArgs(pairs)) == pairs
  {
    if pairs != [] {
      var n := |pairs|;
      var init := pairs[..n - 1];
      var last := pairs[n - 1];
      assert init + [last] == pairs;
      EntriesOfRendered(init);
      ArgumentEntry(last.0, last.1);
      EntriesSnocKeyed(RenderArgs(init), Argument(last.0, last.1), (last.0, Literal(last.1)));
      RenderArgsSnoc(pairs);
    }
  }

  lemma ArgumentListOfJoin(ps: seq<string>)
    requires |ps| >= 1
    requires forall i :: 0 <= i < |ps| ==> Atom(ps[i]) && ps[i] != [] && Trimmed(ps[i])
    ensures ArgumentList(Join(ps, ", ")) == ps
  {
    FragmentsOfJoin(ps);
    ArgumentListFrom(Join(ps, ", "), ps);
  }

  lemma ArgumentListFrom(s: string, ps: seq<string>)
    requires |ps| >= 1 && Fragments(s, Outside) == [ps[0]] + Pad(ps[1..])
    requires forall i :: 0 <= i < |ps| ==> ps[i] != [] && Trimmed(ps[i])
    ensures ArgumentList(s) == ps
  {
    StripPadded(ps);
  }

  /** Stripping the pieces of a `, `-join gives the pieces back. */
  lemma StripPadded(ps: seq<string>)
    requires |ps| >= 1
    requires forall i :: 0 <= i < |ps| ==> ps[i] != [] && Trimmed(ps[i])
    ensures var f := [ps[0]] + Pad(ps[1..]);
            f[|f| - 1] != "" && StripAll(f[..|f| - 1]) + [Strip(f[|f| - 1])] == ps
  {
    StripPieces(ps);
    StripInitOf([ps[0]] + Pad(ps[1..]), ps);
  }

  lemma StripPieces(ps: seq<string>)
    requires |ps| >= 1
    requires forall i :: 0 <= i < |ps| ==> ps[i] != [] && Trimmed(ps[i])
    ensures var f := [ps[0]] + Pad(ps[1..]);
            |f| == |ps| && forall i :: 0 <= i < |f| ==> f[i] != [] && Strip(f[i]) == ps[i]
  {
    forall i | 0 <= i < |ps|
      ensures var f := [ps[0]] + Pad(ps[1..]); f[i] != [] && Strip(f[i]) == ps[i]
    {
      StripPiece(ps, i);
    }
  }

  /** Pieces that strip to `ys` strip to `ys` when the last is taken apart. */
  lemma StripInitOf(xs: seq<string>, ys: seq<string>)
    requires |xs| == |ys| >= 1 && forall i :: 0 <= i < |xs| ==> Strip(xs[i]) == ys[i]
    ensures StripAll(xs[..|xs| - 1]) + [Strip(xs[|xs| - 1])] == ys
  {
    var n := |xs|;
    var xinit, yinit := xs[..n - 1], ys[..n - 1];
    forall i | 0 <= i < n - 1
      ensures Strip(xinit[i]) == yinit[i]
    {
      assert xinit[i] == xs[i];
    }
    StripAllOf(xinit, yinit);
    LastSplit(ys);
  }

  lemma StripAllOf(xs: seq<string>, ys: seq<string>)
    requires |xs| == |ys| && forall i :: 0 <= i < |xs| ==> Strip(xs[i]) == ys[i]
    ensures StripAll(xs) == ys
  {
  }

  lemma LastSplit<T>(s: seq<T>)
    requires |s| >= 1
    ensures s[..|s| - 1] + [s[|s| - 1]] == s
  {
  }

  lemma StripPiece(ps: seq<string>, i: nat)
    requires i < |ps| && ps[i] != [] && Trimmed(ps[i])
    ensures var f := [ps[0]] + Pad(ps[1..]);
            f[i] != [] && Strip(f[i]) == ps[i]
  {
    if i == 0 {
      StripIdentity(ps[0]);
    } else {
      assert ([ps[0]] + Pad(ps[1..]))[i] == " " + ps[i];
      StripPadding(ps[i]);
    }
  }

  lemma RenderedHead(name: string, pairs: seq<(string, Value)>)
    requires IsIdentifier(name)
    ensures CallName(RenderCall(name, pairs)) == Some(name)
    ensures ArgsSpan(RenderCall(name, pairs)) == Some(Join(RenderArgs(pairs), ", "))
  {
    var body := Join(RenderArgs(pairs), ", ");
    var s := RenderCall(name, pairs);
    var n := |name|;
    assert s[..n] == name && s[n] == '(';
    assert s[n..n] == [];
    assert CallHead(s, name, n);
    CallNameIff(s, name);
    var p := IndexOf(s, '(').value;
    assert s[|s| - 1] == ')';
    assert s[n + 1..|s| - 1] == body;
  }

  lemma {:induction false} JoinEnds(ps: seq<string>)
    requires |ps| >= 1 && forall i :: 0 <= i < |ps| ==> ps[i] != []
    ensures var j := Join(ps, ", ");
            j != [] && j[0] == ps[0][0] && j[|j| - 1] == ps[|ps| - 1][|ps[|ps| - 1]| - 1]
  {
    if |ps| > 1 {
      JoinEnds(ps[1..]);
    }
  }

  /** Round trip: `name(k1='v1', k2=True, ...)` with an identifier name,
      identifier keys and literal values parses to `name` and to exactly the
      dictionary the pairs describe, a repeated key keeping its last value. */
  lemma RoundTrip(name: string, pairs: seq<(string, Value)>)
    requires IsIdentifier(name)
    requires forall i :: 0 <= i < |pairs| ==> IsIdentifier(pairs[i].0) && Renderable(pairs[i].1)
    ensures ParseCall(RenderCall(name, pairs)) == (Some(name), ToMap(pairs))
  {
    var text := RenderCall(name, pairs);
    RenderedHead(name, pairs);
    var ps := RenderArgs(pairs);
    var body := Join(ps, ", ");
    if pairs == [] {
      assert body == "";
      ParseCallOf(text, name, body);
    } else {
      forall i | 0 <= i < |ps|
        ensures Atom(ps[i]) && ps[i] != [] && Trimmed(ps[i])
      {
        ArgumentAtom(pairs[i].0, pairs[i].1);
        ArgumentEntry(pairs[i].0, pairs[i].1);
      }
      JoinEnds(ps);
      assert Trimmed(body) && body != [] by {
        assert Trimmed(ps[0]) && Trimmed(ps[|ps| - 1]);
      }
      ParseCallOf(text, name, body);
      ArgumentListOfJoin(ps);
      EntriesOfRendered(pairs);
    }
  }

  /** The parse of a call whose head and argument span are known. */
  lemma ParseCallOf(text: string, name: string, body: string)
    requires CallName(text) == Some(name) && ArgsSpan(text) == Some(body) && Trimmed(body)
    ensures ParseCall(text) == (Some(name), if body == [] then map[] else ArgsDict(ArgumentList(body)))
  {
    StripIdentity(body);
  }

  // ---------------------------------------------------------------------
  // The registry (function_ops.py:9-44) and the dispatcher (function_ops.py:166-198)
  // ---------------------------------------------------------------------

  /** A function object of a loaded module: the module it comes from and the
      parameter names of its signature, in order. */
  datatype Callable = Callable(origin: string, params: seq<string>)

  /** What importing one file gives: an exception, or the module's functions
      in the order `inspect.getmembers` lists them. */
  datatype ModuleLoad = LoadFailed(message: string) | Loaded(functions: seq<(string, Callable)>)

  datatype SourceFile = SourceFile(filename: string, load: ModuleLoad)

  /** One directory of the walk with the files it holds, in walk order. */
  datatype WalkStep = WalkStep(root: string, files: seq<SourceFile>)

  /** What a call leads to: `str` of the returned value, or the message of
      the exception it raised. */
  datatype Outcome = Returned(text: string) | Raised(message: string)

  /** Only `.py` files whose name does not start with `__` are imported. */
  predicate IsModuleFile(filename: string) {
    EndsWith(filename, ".py") && !StartsWith(filename, "__")
  }

  predicate IsAiName(name: string) { StartsWith(name, "ai_") }

  function RegisterMembers(registry: map<string, Callable>, functions: seq<(string, Callable)>): map<string, Callable>
    decreases |functions|
  {
    if functions == [] then registry
    else
      var r := RegisterMembers(registry, functions[..|functions| - 1]);
      var (name, f) := functions[|functions| - 1];
      if IsAiName(name) then r[name := f] else r
  }

  function RegisterFile(registry: map<string, Callable>, file: SourceFile): map<string, Callable> {
    if IsModuleFile(file.filename) && file.load.Loaded? then RegisterMembers(registry, file.load.functions)
    else registry
  }

  function LoadFiles(registry: map<string, Callable>, files: seq<SourceFile>): map<string, Callable>
    decreases |files|
  {
    if files == [] then registry
    else RegisterFile(LoadFiles(registry, files[..|files| - 1]), files[|files| - 1])
  }

  function Flatten(walk: seq<WalkStep>): seq<SourceFile>
    decreases |walk|
  {
    if walk == [] then [] else Flatten(walk[..|walk| - 1]) + walk[|walk| - 1].files
  }

  /** The registry after loading a directory; None stands for a path that is
      not a directory, which is logged and leaves the registry as it was. */
  function LoadDirectory(registry: map<string, Callable>, walk: Option<seq<WalkStep>>): map<string, Callable> {
    if walk.None? then registry else LoadFiles(registry, Flatten(walk.value))
  }

  /** The last function named `name` in a module's member list. */
  function LastMember(functions: seq<(string, Callable)>, name: string): Option<Callable>
    decreases |functions|
  {
    if functions == [] then None
    else if functions[|functions| - 1].0 == name then Some(functions[|functions| - 1].1)
    else LastMember(functions[..|functions| - 1], name)
  }

  /** The definition of `name` in the last imported module that defines it
      (None for a name without the `ai_` prefix). */
  function LastDefinition(files: seq<SourceFile>, name: string): Option<Callable>
    decreases |files|
  {
    if files == [] || !IsAiName(name) then None
    else
      var f := files[|files| - 1];
      if IsModuleFile(f.filename) && f.load.Loaded? && LastMember(f.load.functions, name).Some?
      then LastMember(f.load.functions, name)
      else LastDefinition(files[..|files| - 1], name)
  }

  lemma {:induction false} RegisterMembersAt(registry: map<string, Callable>, functions: seq<(string, Callable)>, name: string)
    ensures var r := RegisterMembers(registry, functions);
            if IsAiName(name) && LastMember(functions, name).Some?
            then name in r && r[name] == LastMember(functions, name).value
            else (name in r <==> name in registry) && (name in registry ==> r[name] == registry[name])
  {
    if functions != [] {
      RegisterMembersAt(registry, functions[..|functions| - 1], name);
    }
  }

  /** What the registry holds for a name after loading: the last imported
      definition when there is one, otherwise what it held before. */
  lemma {:induction false} LoadFilesAt(registry: map<string, Callable>, files: seq<SourceFile>, name: string)
    ensures var r := LoadFiles(registry, files);
            match LastDefinition(files, name)
            case Some(f) => name in r && r[name] == f
            case None => (name in r <==> name in registry) && (name in registry ==> r[name] == registry[name])
  {
    if files != [] {
      var init := files[..|files| - 1];
      LoadFilesAt(registry, init, name);
      var f := files[|files| - 1];
      if IsModuleFile(f.filename) && f.load.Loaded? {
        RegisterMembersAt(LoadFiles(registry, init), f.load.functions, name);
      }
    }
  }

  /** Loading adds no name without the `ai_` prefix. */
  lemma LoadAddsOnlyAiNames(registry: map<string, Callable>, walk: Option<seq<WalkStep>>, name: string)
    requires name in LoadDirectory(registry, walk) && name !in registry
    ensures IsAiName(name)
  {
    if walk.Some? {
      LoadFilesAt(registry, Flatten(walk.value), name);
    }
  }

  /** Loading the same directory again changes nothing. */
  lemma LoadIdempotent(registry: map<string, Callable>, walk: Option<seq<WalkStep>>)
    ensures LoadDirectory(LoadDirectory(registry, walk), walk) == LoadDirectory(registry, walk)
  {
    if walk.Some? {
      var fs := Flatten(walk.value);
      var once := LoadFiles(registry, fs);
      var twice := LoadFiles(once, fs);
      forall name ensures (name in twice <==> name in once) && (name in once ==> twice[name] == once[name]) {
        LoadFilesAt(registry, fs, name);
        LoadFilesAt(once, fs, name);
      }
    }
  }

  lemma LoadFilesSnoc(registry: map<string, Callable>, files: seq<SourceFile>, f: SourceFile)
    ensures LoadFiles(registry, files + [f]) == RegisterFile(LoadFiles(registry, files), f)
  {
    assert (files + [f])[..|files|] == files;
  }

  lemma {:induction false} LoadFilesAppend(registry: map<string, Callable>, a: seq<SourceFile>, b: seq<SourceFile>)
    ensures LoadFiles(registry, a + b) == LoadFiles(LoadFiles(registry, a), b)
  {
    if b == [] {
      assert a + b == a;
    } else {
      assert (a + b)[..|a + b| - 1] == a + b[..|b| - 1];
      LoadFilesAppend(registry, a, b[..|b| - 1]);
    }
  }

  /** A module that fails to import is skipped and the scan goes on. */
  lemma FailedModuleSkipped(registry: map<string, Callable>, a: seq<SourceFile>, filename: string, message: string, b: seq<SourceFile>)
    ensures LoadFiles(registry, a + [SourceFile(filename, LoadFailed(message))] + b) == LoadFiles(registry, a + b)
  {
    var f := SourceFile(filename, LoadFailed(message));
    LoadFilesAppend(registry, a + [f], b);
    LoadFilesAppend(registry, a, [f]);
    assert LoadFiles(LoadFiles(registry, a), [f]) == LoadFiles(registry, a) by {
      assert [f][..0] == [];
    }
    LoadFilesAppend(registry, a, b);
  }

  function NotFoundMessage(name: string): string {
    "Function '" + name + "' not found in registry"
  }

  /** The arguments whose key is a declared parameter, values unchanged. */
  function ValidArgs(params: seq<string>, args: map<string, Value>): map<string, Value> {
    map k | k in args && k in params :: args[k]
  }

  /** What `execute_function` leads to, with `callee` standing for the
      behaviour of the registered functions. */
  function Dispatch(registry: map<string, Callable>, name: string, args: map<string, Value>,
                    callee: (Callable, map<string, Value>) -> Outcome): Outcome {
    if name !in registry then Raised(NotFoundMessage(name))
    else callee(registry[name], ValidArgs(registry[name].params, args))
  }

  /** The module-level `function_registry`. */
  class FunctionRegistry {
    var registry: map<string, Callable>

    constructor ()
      ensures registry == map[]
    {
      registry := map[];
    }

    /** `load_functions_from_directory`: the walk of the directory (None when
        it is not a directory) with each file's import result. */
    method LoadFunctionsFromDirectory(walk: Option<seq<WalkStep>>)
      modifies this
      ensures registry == LoadDirectory(old(registry), walk)
    {
      if walk.None? {
        return;
      }
      var steps := walk.value;
      for i := 0 to |steps|
        invariant registry == LoadFiles(old(registry), Flatten(steps[..i]))
      {
        assert steps[..i + 1][..i] == steps[..i];
        LoadFilesAppend(old(registry), Flatten(steps[..i]), steps[i].files);
        LoadWalkStep(steps[i].files);
      }
      assert steps[..|steps|] == steps;
    }

    /** The file loop of `load_functions_from_directory` for one directory
        of the walk: each file with the module suffix is imported and, when
        the import succeeds, its `ai_` functions are registered. */
    method LoadWalkStep(files: seq<SourceFile>)
      modifies this
      ensures registry == LoadFiles(old(registry), files)
    {
      for j := 0 to |files|
        invariant registry == LoadFiles(old(registry), files[..j])
      {
        var file := files[j];
        LoadFilesSnoc(old(registry), files[..j], file);
        assert files[..j + 1] == files[..j] + [file];
        if IsModuleFile(file.filename) {
          match file.load {
            case LoadFailed(_) =>
            case Loaded(functions) =>
              RegisterModule(functions);
          }
        }
      }
      assert files[..|files|] == files;
    }

    /** The member loop of `load_functions_from_directory` for one imported
        module: every function whose name starts with `ai_` is registered
        under that name, a later one replacing an earlier one. */
    method RegisterModule(functions: seq<(string, Callable)>)
      modifies this
      ensures registry == RegisterMembers(old(registry), functions)
    {
      for k := 0 to |functions|
        invariant registry == RegisterMembers(old(registry), functions[..k])
      {
        assert functions[..k + 1][..k] == functions[..k];
        var (name, f) := functions[k];
        if IsAiName(name) {
          registry := registry[name := f];
        }
      }
      assert functions[..|functions|] == functions;
    }

    /** `execute_function`: an unknown name raises and calls nothing;
        otherwise the function is called with exactly the arguments whose
        keys it declares, values unchanged, and its outcome (a returned
        value or a raised exception) is passed on. `passed` is the keyword
        arguments the function was called with, None when nothing was called. */
    method ExecuteFunction(name: string, args: map<string, Value>, callee: (Callable, map<string, Value>) -> Outcome)
      returns (r: Outcome, passed: Option<map<string, Value>>)
      ensures r == Dispatch(registry, name, args, callee)
      ensures name !in registry ==> r == Raised(NotFoundMessage(name)) && passed.None?
      ensures name in registry ==>
        && passed.Some?
        && passed.value.Keys == args.Keys * (set p | p in registry[name].params)
        && (forall k :: k in passed.value ==> passed.value[k] == args[k])
        && r == callee(registry[name], passed.value)
    {
      if name !in registry {
        return Raised(NotFoundMessage(name)), None;
      }
      var func := registry[name];
      var valid: map<string, Value> := map[];
      for i := 0 to |func.params|
        invariant valid == ValidArgs(func.params[..i], args)
      {
        var p := func.params[i];
        assert forall k :: k in func.params[..i + 1] <==> k in func.params[..i] || k == p;
        if p in args {
          valid := valid[p := args[p]];
        }
      }
      assert func.params[..|func.params|] == func.params;
      r := callee(func, valid);
      passed := Some(valid);
    }
  }
}
