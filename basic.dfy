/**
 * The basic calculator: digits, a decimal point, + - × ÷ %, "=", clear,
 * negate and backspace, each an update of the frame's fields in place.
 * Every method's new state is the matching Keypad transition, whose
 * properties are proved in module Keypad.
 */
module Basic {
  import opened Options
  import opened Numerals
  import opened History
  import opened Keypad

  class BasicCalculator {
    var input: string
    var operation: Option<Operator>
    var first: Option<real>
    var result: Option<real>
    var justPressed: bool
    var display: string
    var pending: string
    const lib: FloatLib

    function State(): Machine
      reads this
    {
      Machine(input, operation, first, result, justPressed, display, pending)
    }

    constructor (lib: FloatLib)
      ensures State() == Start && this.lib == lib
    {
      input, operation, first, result := "", None, None, None;
      justPressed, display, pending := false, "0", "";
      this.lib := lib;
    }

    method AppendNumber(digit: char)
      requires digit in "0123456789"
      modifies this
      ensures State() == EnterNumber(BasicStyle, old(State()), [digit])
    {
      if justPressed {
        input := "";
        justPressed := false;
      }
      if input == "0" && digit == '0' {
        return;
      } else if input == "0" {
        input := [digit];
      } else {
        input := input + [digit];
      }
      display := Screen(input);
    }

    method AppendDecimal()
      modifies this
      ensures State() == EnterDecimal(BasicStyle, old(State()))
    {
      if justPressed {
        input := "0";
        justPressed := false;
      }
      if '.' !in input {
        input := input + ".";
      }
      display := Screen(input);
    }

    /** The "=" key. `raised` reports that float() of the input raised and nothing changed. */
    method Calculate() returns (record: Option<Record>, raised: bool)
      modifies this
      ensures var s := Keypad.Calculate(BasicStyle, old(State()), lib);
        State() == s.machine && record == s.record && raised == s.raised
    {
      record, raised := None, false;
      if operation.Some? && first.Some? && input != "" {
        var second := PyFloat(input, lib.syntax);
        if second.None? {
          raised := true;
          return;
        }
        var op, a, b := operation.value, first.value, second.value;
        match Evaluate(op, a, b, lib) {
          case Value(r) =>
            var text := ResultText(r, lib);
            result := Some(r);
            record := Some(Record("Basic", Expression(BasicStyle, op, a, b, lib), text));
            input := text;
            first, operation := None, None;
            pending := "";
            display := Screen(input);
          case Raised(zeroDivision, message) =>
            display := if zeroDivision then "Error: Division by zero" else "Error: " + message;
            ResetAfterError();
        }
      }
    }

    /** An operator key; the basic keypad has no power key. */
    method HandleOperator(op: Operator) returns (record: Option<Record>)
      requires op != Power
      modifies this
      ensures var s := PressOperator(BasicStyle, old(State()), op, lib);
        State() == s.machine && record == s.record
    {
      record := None;
      if input != "" {
        if first.Some? {
          var raised;
          record, raised := Calculate();
          if raised {
            return;
          }
        }
        var x := PyFloat(input, lib.syntax);
        if x.None? {
          return;
        }
        first := Some(x.value);
        operation := Some(op);
        justPressed := true;
        pending := lib.floatStr(x.value) + " " + Sign(op);
      }
    }

    method Clear()
      modifies this
      ensures State() == Cleared(old(State()))
    {
      input, operation, first, result := "", None, None, None;
      pending, display := "", "0";
    }

    method Negate()
      modifies this
      ensures State() == Negated(old(State()))
    {
      if input != "" {
        if input[0] == '-' {
          input := input[1..];
        } else {
          input := "-" + input;
        }
        display := Screen(input);
      }
    }

    method Backspace()
      modifies this
      ensures State() == Erased(old(State()))
    {
      if input != "" {
        input := input[..|input| - 1];
        if input == "" || input == "-" {
          input := "";
        }
        display := Screen(input);
      }
    }

    method ResetAfterError()
      modifies this
      ensures State() == old(State()).(input := "", operation := None, first := None, result := None, pending := "")
    {
      input, operation, first, result := "", None, None, None;
      pending := "";
    }
  }
}
