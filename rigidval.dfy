/**
 * The scenario of the set-once cell's own test: set 666, try to set 111, report the
 * refusal, then print what the cell holds. The test file carries its own copy of the
 * cell, identical to the command line's but for the exception's name and message, so the
 * scenario runs on `CmdDeck.RigidVal`.
 */
module RigidValScenario {
  import opened Wrappers
  import CmdDeck
  import Text

  const Warning := "warning: attempted to set value set more than once"

  /** `foo()`: the second `set` raises, the warning is printed, and the cell still holds
      666; `lines` is what it prints, in order. */
  method Foo() returns (held: Option<int>, lines: seq<string>)
    ensures held == Some(666)
    ensures lines == [Warning, "val: 666"]
  {
    var val := new CmdDeck.RigidVal<int>();
    lines := [];
    var raised := val.Set(Some(666));
    if !raised {
      raised := val.Set(Some(111));
    }
    if raised {
      lines := lines + [Warning];
    }
    held := val.Get();
    Decimal666();
    assert "val: " + Repr(held) == "val: 666";
    lines := lines + ["val: " + Repr(held)];
  }

  /** The backquote `repr` of what `get()` returns: `None` or the decimal. */
  function Repr(v: Option<int>): string {
    match v
    case None => "None"
    case Some(n) => CmdDeck.IntStr(n)
  }

  lemma Decimal666()
    ensures CmdDeck.IntStr(666) == "666"
  {
    assert Text.Decimal(6) == "6";
    assert Text.Decimal(66) == "66";
  }
}
