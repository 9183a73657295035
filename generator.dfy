/** The PasswordGenerator object, with its checkboxes, output field, displayed strength
    and history as plain fields, and the character-selection loop of generatePassword. */
module Generator {
  import opened Charsets
  import opened Scoring
  import opened History

  /** One entry of the Uint32Array filled by the secure random source. */
  newtype uint32 = x: int | 0 <= x < 0x1_0000_0000

  /** The loop of generatePassword: character i is the alphabet entry at draws[i]
      modulo the alphabet's length, so the password has one character per draw and
      every character comes from the alphabet. */
  method DrawPassword(chars: string, draws: seq<uint32>) returns (password: string)
    requires |chars| > 0
    ensures |password| == |draws|
    ensures forall i :: 0 <= i < |draws| ==> password[i] == chars[draws[i] as int % |chars|]
    ensures forall c :: c in password ==> c in chars
  {
    password := "";
    for i := 0 to |draws|
      invariant |password| == i
      invariant forall k :: 0 <= k < i ==> password[k] == chars[draws[k] as int % |chars|]
    {
      password := password + [chars[draws[i] as int % |chars|]];
    }
  }

  class PasswordGenerator {
    var uppercase: bool
    var lowercase: bool
    var numbers: bool
    var symbols: bool
    var excludeSimilar: bool
    /** The value of the password output field. */
    var passwordOutput: string
    /** The strength level last handed to the strength bar. */
    var shownStrength: nat
    var history: seq<HistoryItem>

    /** The four class checkboxes as a value. */
    function Checked(): Selection
      reads this
    {
      Selection(uppercase, lowercase, numbers, symbols)
    }

    /** The checkbox state and the history loaded at start-up are given, and so is the
        output field's value, which the page supplies; the strength bar is reset to 0. */
    constructor (checked: Selection, excludeSimilar: bool, savedHistory: seq<HistoryItem>,
                 output: string)
      ensures Checked() == checked && this.excludeSimilar == excludeSimilar
      ensures history == savedHistory && passwordOutput == output && shownStrength == 0
    {
      uppercase, lowercase, numbers, symbols := checked.uppercase, checked.lowercase, checked.numbers, checked.symbols;
      this.excludeSimilar := excludeSimilar;
      history := savedHistory;
      passwordOutput := output;
      shownStrength := 0;
    }

    /** getAvailableChars: builds the alphabet from the checked classes, falling back to
        lowercase + uppercase + numbers (and checking those boxes) when the result is
        empty, then drops the similar characters when asked to. */
    method GetAvailableChars() returns (chars: string)
      modifies this`uppercase, this`lowercase, this`numbers
      ensures Checked() == AvailableChars(old(Checked()), excludeSimilar).selection
      ensures chars == AvailableChars(old(Checked()), excludeSimilar).chars
    {
      ghost var sel := Checked();
      chars := "";
      if uppercase { chars := chars + Uppercase; }
      assert chars == if sel.uppercase then Uppercase else "";
      if lowercase { chars := chars + Lowercase; }
      if numbers { chars := chars + Numbers; }
      if symbols { chars := chars + Symbols; }
      assert chars == Selected(sel);
      if chars == "" {
        chars := Lowercase + Uppercase + Numbers;
        lowercase := true;
        uppercase := true;
        numbers := true;
      }
      assert chars == AvailableChars(sel, false).chars;
      if excludeSimilar {
        chars := WithoutSimilar(chars);
      }
    }

    /** generatePassword, with the requested length and the random draws given. With an
        empty alphabet the output is cleared and the strength bar reset; otherwise the
        output holds one alphabet character per draw, never a similar character when
        those are excluded, and the strength bar shows its level. */
    method GeneratePassword(length: nat, draws: seq<uint32>)
      requires |draws| == length
      modifies this`uppercase, this`lowercase, this`numbers, this`passwordOutput, this`shownStrength
      ensures var pool := AvailableChars(old(Checked()), excludeSimilar);
              Checked() == pool.selection &&
              if pool.chars == "" then passwordOutput == "" && shownStrength == 0
              else
                |passwordOutput| == length &&
                (forall i :: 0 <= i < length ==>
                   passwordOutput[i] == pool.chars[draws[i] as int % |pool.chars|]) &&
                (forall c :: c in passwordOutput ==> c in pool.chars) &&
                (excludeSimilar ==> forall c :: c in passwordOutput ==> !IsSimilar(c)) &&
                shownStrength == CalculateStrength(passwordOutput)
    {
      var availableChars := GetAvailableChars();
      if |availableChars| == 0 {
        passwordOutput := "";
        shownStrength := 0;
        return;
      }
      var password := DrawPassword(availableChars, draws);
      passwordOutput := password;
      shownStrength := CalculateStrength(password);
    }

    /** addToHistory: drops the entries for `password`, puts the new entry in front and
        keeps at most MaxHistory entries. */
    method AddToHistory(password: string, timestamp: string)
      modifies this`history
      ensures history == Recorded(old(history), password, timestamp)
      ensures DistinctPasswords(old(history)) ==> DistinctPasswords(history)
    {
      history := Without(history, password);
      history := [HistoryItem(password, timestamp)] + history;
      if |history| > MaxHistory {
        history := history[..MaxHistory];
      }
      if DistinctPasswords(old(history)) {
        RecordedDistinct(old(history), password, timestamp);
      }
    }
  }
}
