/** The calculator window's input logic, as a pure state machine over the
    four fields the window keeps. Widgets, display text and the network call
    are left out; the server's reply to an evaluation is a parameter. */
module Keypad {
  import opened Base
  import opened Numerals
  import Engine

  /** The four operator glyphs, as opaque tokens. */
  datatype Symbol = Plus | Minus | Times | Obelus

  /** The characters the digit buttons and digit keys send. */
  type DigitChar = c: char | '0' <= c <= '9' witness '0'

  datatype Key =
    | Digit(d: DigitChar)
    | Point
    | Clear
    | Backspace
    | Sign
    | Operator(symbol: Symbol)
    | Equals

  /** What `send_calculation` hands back: a success carrying the result both
      as a number and as the text `str(result)`, or an error message. */
  datatype Reply = Succeeded(value: real, text: string) | Failed(message: string)

  predicate StartsWithPlus(s: string)
  {
    s != [] && s[0] == '+'
  }

  /** A success reply whose text reads back as its value and carries no
      leading '+', as `str()` of an `int` or a finite `float` does. */
  predicate Consistent(r: Reply)
  {
    r.Succeeded? ==> ParseFloat(r.text) == Some(r.value) && !StartsWithPlus(r.text)
  }

  /** `current_input`, `first_operand`, `current_operator`, `should_reset`. */
  datatype UiState = UiState(input: string, first: Option<real>, operator: Option<Symbol>, reset: bool)

  /** The state the window starts in. */
  const Initial := UiState("", None, None, false)

  /** At most this many characters other than '.' and '-' can be typed. */
  const DigitCap := 12

  /** The request an evaluation sends to the server. */
  datatype Request = Request(operation: string, a: real, b: real)

  /** The operation code sent for each glyph. */
  function OperationCode(s: Symbol): (code: string)
    ensures code in Engine.KnownNames
  {
    match s
    case Plus => "add"
    case Minus => "sub"
    case Times => "mul"
    case Obelus => "div"
  }

  /** Distinct glyphs are sent as distinct operations, and the server's
      dispatch table maps each code back to the matching arithmetic. */
  lemma OperationCodesMatchServer(s: Symbol, t: Symbol)
    ensures OperationCode(s) == OperationCode(t) ==> s == t
    ensures Engine.Lookup(OperationCode(s)) == Some(
              match s
              case Plus => Engine.Add
              case Minus => Engine.Sub
              case Times => Engine.Mul
              case Obelus => Engine.Div)
  {
  }

  // ---------------------------------------------------------------------
  // Text edits
  // ---------------------------------------------------------------------

  /** The characters of `s` that count against the digit cap. */
  function Significant(s: string): (t: string)
    ensures |t| <= |s|
    ensures forall i | 0 <= i < |t| :: t[i] != '.' && t[i] != '-'
  {
    if s == [] then []
    else if s[0] == '.' || s[0] == '-' then Significant(s[1..])
    else [s[0]] + Significant(s[1..])
  }

  /** Appending a character adds it to the counted ones unless it is '.' or '-'. */
  lemma {:induction false} SignificantAppend(s: string, c: char)
    ensures c != '.' && c != '-' ==> Significant(s + [c]) == Significant(s) + [c]
    ensures c == '.' || c == '-' ==> Significant(s + [c]) == Significant(s)
  {
    if s != [] {
      assert (s + [c])[1..] == s[1..] + [c];
      SignificantAppend(s[1..], c);
    } else {
      assert Significant([c]) == (if c == '.' || c == '-' then [] else [c]) + Significant([]);
    }
  }

  /** The digit key: appends while fewer than `DigitCap` characters count. */
  function AppendDigit(s: string, d: DigitChar): (t: string)
    ensures |Significant(s)| < DigitCap ==> t == s + [d] && |Significant(t)| == |Significant(s)| + 1
    ensures |Significant(s)| >= DigitCap ==> t == s
  {
    if |Significant(s)| < DigitCap then
      SignificantAppend(s, d);
      s + [d]
    else s
  }

  /** The '.' key: one point at most, an empty input becoming "0.". */
  function AppendPoint(s: string): (t: string)
    ensures '.' in s ==> t == s
    ensures '.' !in s && s == "" ==> t == "0."
    ensures '.' !in s && s != "" ==> t == s + "."
    ensures Dots(t) == 1 || (Dots(s) > 1 && t == s)
  {
    if '.' in s then s
    else
      assert multiset(s + ".") == multiset(s) + multiset(".");
      (if s == "" then "0" else s) + "."
  }

  /** Backspace: drop the last character, if any. */
  function DropLast(s: string): (t: string)
    ensures s == "" ==> t == ""
    ensures s != "" ==> t + [s[|s| - 1]] == s
  {
    if s == "" then "" else s[..|s| - 1]
  }

  /** The '±' key: strip a leading '-' or put one in front; an empty input
      stays empty. */
  function ToggleSign(s: string): (t: string)
    ensures s == "" ==> t == ""
    ensures s != "" && s[0] == '-' ==> [s[0]] + t == s
    ensures s != "" && s[0] != '-' ==> t == ['-'] + s
  {
    if s == "" then s
    else if s[0] == '-' then s[1..]
    else ['-'] + s
  }

  /** Toggling twice gives the input back exactly when the input is empty,
      or is neither the lone "-" nor starts with two minus signs. */
  lemma ToggleSignInvolution(s: string)
    ensures ToggleSign(ToggleSign(s)) == s <==>
              (s == "" || (s != "-" && !(|s| >= 2 && s[0] == '-' && s[1] == '-')))
  {
    if s != "" && s[0] != '-' {
      assert (['-'] + s)[1..] == s;
    }
    if s == "-" {
      assert ToggleSign(s) == "";
    }
  }

  /** On a literal without a '+' sign, toggling negates the value read. */
  lemma ToggleSignNegates(s: string, v: real)
    requires ParseFloat(s) == Some(v)
    requires s != "" && s[0] != '+'
    ensures ParseFloat(ToggleSign(s)) == Some(-v)
  {
    if s[0] == '-' {
      var rest := s[1..];
      assert ParseUnsigned(rest) == Some(-v);
      UnsignedShape(rest);
      assert ParseFloat(rest) == ParseUnsigned(rest);
    } else {
      ParseNegated(s);
    }
  }

  // ---------------------------------------------------------------------
  // Evaluation and operators
  // ---------------------------------------------------------------------

  /** The request '=' would send: none unless a first operand and an
      operator are set and the input, when there is one, reads as a number;
      an empty input repeats the first operand. */
  function Pending(s: UiState): (q: Option<Request>)
    ensures q.Some? <==> s.first.Some? && s.operator.Some? && (s.input == "" || ParseFloat(s.input).Some?)
    ensures q.Some? ==> q.value.a == s.first.value && q.value.operation == OperationCode(s.operator.value)
    ensures q.Some? && s.input == "" ==> q.value.b == s.first.value
    ensures q.Some? && s.input != "" ==> ParseFloat(s.input) == Some(q.value.b)
  {
    if s.first.None? || s.operator.None? then None
    else
      var second := if s.input != "" then ParseFloat(s.input) else Some(s.first.value);
      match second
      case None => None
      case Some(b) => Some(Request(OperationCode(s.operator.value), s.first.value, b))
  }

  /** `_calculate_result` with the server's `reply`: a no-op unless a request
      is pending; afterwards the operator is cleared and the next input key
      starts a new number. */
  function Evaluate(s: UiState, reply: Reply): (t: UiState)
    ensures Pending(s).None? ==> t == s
    ensures Pending(s).Some? ==> t.operator.None? && t.reset
    ensures Pending(s).Some? && reply.Succeeded? ==> t.first == Some(reply.value) && t.input == reply.text
    ensures Pending(s).Some? && reply.Failed? ==> t.first.None? && t.input == ""
  {
    match Pending(s)
    case None => s
    case Some(_) =>
      match reply
      case Succeeded(v, text) => UiState(text, Some(v), None, true)
      case Failed(_) => UiState("", None, None, true)
  }

  /** The tail of `_handle_operator`: record the operator when there is a
      first operand, and clear the reset flag. */
  function SetOperator(s: UiState, symbol: Symbol): UiState
  {
    (if s.first.Some? then s.(operator := Some(symbol)) else s).(reset := false)
  }

  /** `_handle_operator`: with an input, first evaluate a pending operation,
      then read the input as the new first operand; give up without further
      change when it does not read as a number. */
  function HandleOperator(s: UiState, symbol: Symbol, reply: Reply): (t: UiState)
    ensures s.input == "" ==>
              && t.input == "" && t.first == s.first && !t.reset
              && t.operator == (if s.first.Some? then Some(symbol) else s.operator)
    ensures s.input != "" && ParseFloat(s.input).None? ==> t == s
    ensures (s.first.None? || s.operator.None?) && ParseFloat(s.input).Some? ==>
              t == UiState("", ParseFloat(s.input), Some(symbol), false)
  {
    if s.input != "" then
      var s2 := if s.first.Some? && s.operator.Some? then Evaluate(s, reply) else s;
      match ParseFloat(s2.input)
      case None => s2
      case Some(v) => SetOperator(s2.(first := Some(v), input := ""), symbol)
    else SetOperator(s, symbol)
  }

  /** The keys that do not wipe a displayed result first. */
  predicate KeepsResult(k: Key)
  {
    k.Clear? || k.Equals? || k.Operator?
  }

  /** `_on_button_click`. */
  function Click(s: UiState, k: Key, reply: Reply): (t: UiState)
    ensures k.Clear? ==> t == Initial
    ensures !KeepsResult(k) ==> !t.reset && t.first == s.first && t.operator == s.operator
  {
    var s1 := if s.reset && !KeepsResult(k) then s.(input := "", reset := false) else s;
    match k
    case Clear => Initial
    case Backspace => s1.(input := DropLast(s1.input))
    case Sign => s1.(input := ToggleSign(s1.input))
    case Operator(symbol) => HandleOperator(s1, symbol, reply)
    case Equals => Evaluate(s1, reply)
    case Point => s1.(input := AppendPoint(s1.input))
    case Digit(d) => s1.(input := AppendDigit(s1.input, d))
  }

  // ---------------------------------------------------------------------
  // Properties of a key press
  // ---------------------------------------------------------------------

  /** 'C' puts every field back to its starting value. */
  lemma ClearResets(s: UiState, reply: Reply)
    ensures Click(s, Clear, reply) == Initial
    ensures Initial.input == "" && Initial.first.None? && Initial.operator.None? && !Initial.reset
  {
  }

  /** After a result, any key other than 'C', '=' and the operators acts on
      an empty input with the reset flag cleared. */
  lemma ResultWipedBeforeEditing(s: UiState, k: Key, reply: Reply)
    requires s.reset && !KeepsResult(k)
    ensures Click(s, k, reply) == Click(s.(input := "", reset := false), k, reply)
  {
  }

  /** The input a text-editing key works on. */
  function Edited(s: UiState): string
  {
    if s.reset then "" else s.input
  }

  /** A digit is appended only below the cap; nothing else changes. */
  lemma DigitKey(s: UiState, d: DigitChar, reply: Reply)
    ensures var t := Click(s, Digit(d), reply);
            && (|Significant(Edited(s))| < DigitCap ==> t.input == Edited(s) + [d])
            && (|Significant(Edited(s))| >= DigitCap ==> t.input == Edited(s))
            && t.first == s.first && t.operator == s.operator && !t.reset
  {
  }

  /** The point key adds one point at most, "0." on an empty input. */
  lemma PointKey(s: UiState, reply: Reply)
    ensures var t := Click(s, Point, reply);
            && ('.' in Edited(s) ==> t.input == Edited(s))
            && (Edited(s) == "" ==> t.input == "0.")
            && ('.' !in Edited(s) && Edited(s) != "" ==> t.input == Edited(s) + ".")
            && t.first == s.first && t.operator == s.operator && !t.reset
  {
  }

  /** Backspace removes exactly the last character; empty stays empty. */
  lemma BackspaceKey(s: UiState, reply: Reply)
    ensures var t := Click(s, Backspace, reply);
            && (Edited(s) == "" ==> t.input == "")
            && (Edited(s) != "" ==> t.input + [Edited(s)[|Edited(s)| - 1]] == Edited(s))
            && t.first == s.first && t.operator == s.operator && !t.reset
  {
  }

  /** The '±' key toggles the sign of the edited input; nothing else changes. */
  lemma SignKey(s: UiState, reply: Reply)
    ensures var t := Click(s, Sign, reply);
            && t.input == ToggleSign(Edited(s))
            && t.first == s.first && t.operator == s.operator && !t.reset
  {
  }

  /** '=' without a first operand or an operator changes nothing. */
  lemma EqualsNeedsOperandAndOperator(s: UiState, reply: Reply)
    requires s.first.None? || s.operator.None?
    ensures Click(s, Equals, reply) == s
  {
  }

  /** '=' on an empty input repeats the first operand as the second. */
  lemma EqualsRepeatsOperand(a: real, symbol: Symbol, reset: bool)
    ensures Pending(UiState("", Some(a), Some(symbol), reset)) ==
              Some(Request(OperationCode(symbol), a, a))
  {
  }

  /** A typed number followed by an operator becomes the first operand. */
  lemma OperatorStoresOperand(s: UiState, symbol: Symbol, v: real, reply: Reply)
    requires s.first.None? && ParseFloat(s.input) == Some(v)
    ensures Click(s, Operator(symbol), reply) == UiState("", Some(v), Some(symbol), false)
  {
    ParsedShape(s.input);
  }

  /** Chaining: an operator pressed with a complete expression pending first
      evaluates it; on success the result becomes the first operand of the new
      operator. */
  lemma OperatorChainsOnSuccess(a: real, symbol: Symbol, input: string, b: real,
                                reset: bool, next: Symbol, reply: Reply)
    requires ParseFloat(input) == Some(b)
    requires reply.Succeeded? && Consistent(reply)
    ensures Pending(UiState(input, Some(a), Some(symbol), reset)) ==
              Some(Request(OperationCode(symbol), a, b))
    ensures Click(UiState(input, Some(a), Some(symbol), reset), Operator(next), reply) ==
              UiState("", Some(reply.value), Some(next), false)
  {
    ParsedShape(input);
    ParsedShape(reply.text);
  }

  /** An operator on an empty input replaces the pending operator when there
      is a first operand, and otherwise only clears the reset flag. */
  lemma OperatorReplaces(s: UiState, symbol: Symbol, reply: Reply)
    requires s.input == ""
    ensures s.first.Some? ==> Click(s, Operator(symbol), reply) == s.(operator := Some(symbol), reset := false)
    ensures s.first.None? ==> Click(s, Operator(symbol), reply) == s.(reset := false)
  {
  }

  /** An input `float()` rejects, such as the lone "-" or "-.", makes an
      operator change nothing at all, the reset flag included. */
  lemma OperatorOnUnreadableInput(s: UiState, symbol: Symbol, reply: Reply)
    requires s.input == "-" || s.input == "-."
    ensures Click(s, Operator(symbol), reply) == s
  {
    assert ParseFloat(s.input).None? by {
      assert s.input[1..] == "" || s.input[1..] == ".";
    }
  }

  /** An operator pressed while a result is shown reads the result text back
      as the first operand. */
  lemma OperatorAfterResult(v: real, text: string, symbol: Symbol, reply: Reply)
    requires Consistent(Succeeded(v, text))
    ensures Click(UiState(text, Some(v), None, true), Operator(symbol), reply) ==
              UiState("", Some(v), Some(symbol), false)
  {
  }

  /** Chaining into an error leaves no operand and no operator: the cleared
      input does not read as a number, so the new operator is dropped. */
  lemma OperatorChainsOnFailure(a: real, symbol: Symbol, input: string, b: real,
                                reset: bool, next: Symbol, message: string)
    requires ParseFloat(input) == Some(b)
    ensures Click(UiState(input, Some(a), Some(symbol), reset), Operator(next), Failed(message)) ==
              UiState("", None, None, true)
  {
    ParsedShape(input);
  }

  // ---------------------------------------------------------------------
  // An invariant of every key sequence
  // ---------------------------------------------------------------------

  /** At most one decimal point, and at most one sign, a minus at the head. */
  predicate TidyText(x: string)
  {
    Dots(x) <= 1 && SingleSigned(x) && !StartsWithPlus(x)
  }

  predicate Tidy(s: UiState)
  {
    TidyText(s.input)
  }

  lemma DropLastTidy(x: string)
    requires TidyText(x)
    ensures TidyText(DropLast(x))
  {
    if x != "" {
      var y := DropLast(x);
      assert x == y + [x[|x| - 1]];
      assert multiset(x) == multiset(y) + multiset([x[|x| - 1]]);
      assert |y| >= 2 ==> y[0] == x[0] && y[1] == x[1];
      assert y != [] ==> y[0] == x[0];
    }
  }

  lemma ToggleSignTidy(x: string)
    requires TidyText(x)
    ensures TidyText(ToggleSign(x))
  {
    var y := ToggleSign(x);
    if x != "" {
      if x[0] == '-' {
        assert x == [x[0]] + y;
        assert multiset(x) == multiset([x[0]]) + multiset(y);
        assert |y| >= 1 ==> y[0] == x[1];
      } else {
        assert multiset(y) == multiset(['-']) + multiset(x);
        assert y[1] == x[0];
      }
    }
  }

  lemma AppendTidy(x: string, c: char)
    requires TidyText(x)
    requires !IsSign(c)
    requires c == '.' ==> Dots(x) == 0
    ensures TidyText(x + [c])
  {
    assert multiset(x + [c]) == multiset(x) + multiset([c]);
    assert |x| >= 2 ==> (x + [c])[0] == x[0] && (x + [c])[1] == x[1];
    assert x != [] ==> (x + [c])[0] == x[0];
  }

  lemma AppendPointTidy(x: string)
    requires TidyText(x)
    ensures TidyText(AppendPoint(x))
  {
    if '.' !in x {
      if x == "" {
        assert multiset("0.") == multiset{'0', '.'};
      } else {
        AppendTidy(x, '.');
      }
    }
  }

  lemma AppendDigitTidy(x: string, d: DigitChar)
    requires TidyText(x)
    ensures TidyText(AppendDigit(x, d))
  {
    if |Significant(x)| < DigitCap {
      AppendTidy(x, d);
    }
  }

  /** Evaluation leaves the old input, an empty one, or the reply's text. */
  lemma EvaluateInput(s: UiState, reply: Reply)
    ensures var t := Evaluate(s, reply).input;
            t == s.input || t == "" || (reply.Succeeded? && t == reply.text)
  {
  }

  /** So does an operator. */
  lemma HandleOperatorInput(s: UiState, symbol: Symbol, reply: Reply)
    ensures var t := HandleOperator(s, symbol, reply).input;
            t == s.input || t == "" || (reply.Succeeded? && t == reply.text)
  {
    if s.input != "" && s.first.Some? && s.operator.Some? {
      EvaluateInput(s, reply);
    }
  }

  /** Every key keeps the input tidy, given a reply `str()` could produce. */
  lemma ClickKeepsTidy(s: UiState, k: Key, reply: Reply)
    requires Tidy(s) && Consistent(reply)
    ensures Tidy(Click(s, k, reply))
  {
    var s1 := if s.reset && !KeepsResult(k) then s.(input := "", reset := false) else s;
    assert TidyText(s1.input);
    if reply.Succeeded? {
      ParsedShape(reply.text);
    }
    match k
    case Clear =>
    case Backspace => DropLastTidy(s1.input);
    case Sign => ToggleSignTidy(s1.input);
    case Point => AppendPointTidy(s1.input);
    case Digit(d) => AppendDigitTidy(s1.input, d);
    case Equals => EvaluateInput(s1, reply);
    case Operator(symbol) => HandleOperatorInput(s1, symbol, reply);
  }

  /** One press of a key together with the reply an evaluation would get. */
  datatype Event = Event(key: Key, reply: Reply)

  /** The window's state after a sequence of key presses. */
  function Run(s: UiState, events: seq<Event>): UiState
    decreases |events|
  {
    if events == [] then s
    else Run(Click(s, events[0].key, events[0].reply), events[1..])
  }

  /** From the start state, every sequence of presses with replies `str()`
      could produce keeps the input tidy. */
  lemma {:induction false} RunKeepsTidy(s: UiState, events: seq<Event>)
    requires Tidy(s)
    requires forall i | 0 <= i < |events| :: Consistent(events[i].reply)
    ensures Tidy(Run(s, events))
    decreases |events|
  {
    if events != [] {
      ClickKeepsTidy(s, events[0].key, events[0].reply);
      RunKeepsTidy(Click(s, events[0].key, events[0].reply), events[1..]);
    }
  }

  /** Pressing two sequences of keys in turn is pressing their
      concatenation. */
  lemma {:induction false} RunAppend(s: UiState, first: seq<Event>, second: seq<Event>)
    ensures Run(s, first + second) == Run(Run(s, first), second)
    decreases |first|
  {
    if first == [] {
      assert first + second == second;
    } else {
      assert (first + second)[1..] == first[1..] + second;
      RunAppend(Click(s, first[0].key, first[0].reply), first[1..], second);
    }
  }

  // ---------------------------------------------------------------------
  // The digit cap over every key sequence
  // ---------------------------------------------------------------------

  /** Typed input never holds more than `DigitCap` counted characters; only a
      displayed result, which the next editing key wipes, may be longer. */
  predicate Capped(s: UiState)
  {
    s.reset || |Significant(s.input)| <= DigitCap
  }

  lemma SignificantDropLast(x: string)
    ensures |Significant(DropLast(x))| <= |Significant(x)|
  {
    if x != "" {
      assert x == DropLast(x) + [x[|x| - 1]];
      SignificantAppend(DropLast(x), x[|x| - 1]);
    }
  }

  lemma SignificantToggleSign(x: string)
    ensures Significant(ToggleSign(x)) == Significant(x)
  {
    if x != "" && x[0] != '-' {
      assert (['-'] + x)[1..] == x;
    }
  }

  /** The point key adds no counted character, except the '0' of "0.". */
  lemma SignificantAppendPoint(x: string)
    ensures x != "" ==> Significant(AppendPoint(x)) == Significant(x)
    ensures x == "" ==> Significant(AppendPoint(x)) == "0"
  {
    if '.' !in x {
      if x == "" {
        assert Significant("0.") == "0" by {
          assert "0."[1..] == ".";
          assert "."[1..] == "";
        }
      } else {
        SignificantAppend(x, '.');
      }
    }
  }

  /** Every key keeps typed input within the digit cap, whatever the reply. */
  lemma ClickKeepsCapped(s: UiState, k: Key, reply: Reply)
    requires Capped(s)
    ensures Capped(Click(s, k, reply))
  {
    var s1 := if s.reset && !KeepsResult(k) then s.(input := "", reset := false) else s;
    match k
    case Clear =>
    case Backspace => SignificantDropLast(s1.input);
    case Sign => SignificantToggleSign(s1.input);
    case Point => SignificantAppendPoint(s1.input);
    case Digit(d) =>
    case Equals =>
    case Operator(symbol) =>
  }

  /** From a capped state, every sequence of clicks stays capped. */
  lemma {:induction false} RunKeepsCapped(s: UiState, events: seq<Event>)
    requires Capped(s)
    ensures Capped(Run(s, events))
    decreases |events|
  {
    if events != [] {
      ClickKeepsCapped(s, events[0].key, events[0].reply);
      RunKeepsCapped(Click(s, events[0].key, events[0].reply), events[1..]);
    }
  }

  lemma InitialTidy()
    ensures Tidy(Initial)
  {
  }

  /** On a tidy input, '±' twice restores the input except on the lone "-",
      which the first press empties. */
  lemma TidySignInvolution(s: UiState)
    requires Tidy(s)
    ensures ToggleSign(ToggleSign(s.input)) == s.input <==> s.input != "-"
  {
    ToggleSignInvolution(s.input);
  }

  // ---------------------------------------------------------------------
  // The keypad and the server together
  // ---------------------------------------------------------------------

  /** The keypad only sends requests the server can compute: two numbers and
      a known operation, so the only possible error is a zero divisor. */
  lemma PendingRequestsAreComputable(s: UiState)
    requires Pending(s).Some?
    ensures var q := Pending(s).value;
            var r := Engine.Calculate(Engine.Named(q.operation), Engine.Items([Engine.Num(q.a), Engine.Num(q.b)]));
            && (r.Error? <==> q.operation == "div" && q.b == 0.0)
            && (r.Error? ==> r.message == Engine.DivisionByZeroMessage)
  {
  }

  /** An integral server result, shown by `str()`, is a reply the keypad can
      continue from. */
  lemma IntegralResultConsistent(n: int)
    ensures Consistent(Succeeded(n as real, IntText(n)))
  {
    ParseIntText(n);
  }
}
