/**
 * Recovery-phrase validation (src/utils/mnemonics.ts): BIP-39 word-set and
 * checksum validation with a fixed error precedence, plus two small string
 * predicates used while the user types a phrase or a derivation path.
 */
module Mnemonics {
  import opened Wrappers
  import opened Text

  datatype MnemonicValidationError = InvalidWord | NotEnoughWords | TooManyWords | InvalidPhrase

  /** Accepted phrase lengths, in words (the BIP-39 range). */
  const MnemonicLengthMin: nat := 12
  const MnemonicLengthMax: nat := 24

  /**
   * The collaborators whose code lies outside this model: the text
   * normaliser applied to user input, membership in the English BIP-39
   * word list, and the BIP-39 checksum test on a whole phrase.
   */
  datatype Bip39 = Bip39(
    normalize: string -> string,
    inWordlist: string -> bool,
    checksumOk: string -> bool)

  datatype WordSetResult = WordSetResult(
    error: Option<MnemonicValidationError>,
    invalidWord: Option<string>,
    isValidLength: bool)

  datatype MnemonicResult = MnemonicResult(
    error: Option<MnemonicValidationError>,
    invalidWord: Option<string>,
    validMnemonic: Option<string>)

  /** JavaScript's `!mnemonic` for an optional string: undefined or "". */
  predicate Falsy(mnemonic: Option<string>) {
    mnemonic.None? || mnemonic.value == ""
  }

  /** The words of a phrase: the normalised text split on single spaces. */
  function Words(bip: Bip39, mnemonic: string): seq<string> {
    Split(bip.normalize(mnemonic), ' ')
  }

  predicate AllInWordlist(bip: Bip39, words: seq<string>) {
    forall i :: 0 <= i < |words| ==> bip.inWordlist(words[i])
  }

  predicate ValidLength(words: seq<string>) {
    MnemonicLengthMin <= |words| <= MnemonicLengthMax
  }

  /** `words[k]` is outside the word list and every later word is inside it. */
  predicate LastInvalidAt(bip: Bip39, words: seq<string>, k: nat) {
    k < |words| && !bip.inWordlist(words[k])
    && forall j :: k < j < |words| ==> bip.inWordlist(words[j])
  }

  /** The words outside the word list, in phrase order. */
  function InvalidWords(bip: Bip39, words: seq<string>): (r: seq<string>)
    ensures forall i :: 0 <= i < |r| ==> !bip.inWordlist(r[i]) && r[i] in words
    ensures r == [] <==> AllInWordlist(bip, words)
  {
    if words == [] then []
    else
      var rest := InvalidWords(bip, words[1..]);
      assert forall i :: 0 <= i < |rest| ==> rest[i] in words by {
        forall i | 0 <= i < |rest| ensures rest[i] in words {
          assert rest[i] in words[1..];
        }
      }
      assert AllInWordlist(bip, words) <==> bip.inWordlist(words[0]) && AllInWordlist(bip, words[1..]) by {
        if bip.inWordlist(words[0]) && AllInWordlist(bip, words[1..]) {
          forall i | 0 <= i < |words| ensures bip.inWordlist(words[i]) {
            if i > 0 { assert words[i] == words[1..][i - 1]; }
          }
        }
      }
      if bip.inWordlist(words[0]) then rest else [words[0]] + rest
  }

  /** validateSetOfWords: word-list membership and length, in that order of precedence. */
  function ValidateSetOfWords(bip: Bip39, mnemonic: Option<string>): (r: WordSetResult)
    ensures Falsy(mnemonic) ==> r == WordSetResult(Some(NotEnoughWords), None, false)
    ensures !Falsy(mnemonic) ==> r.isValidLength == ValidLength(Words(bip, mnemonic.value))
    ensures r.invalidWord.Some? <==> r.error == Some(InvalidWord)
    ensures r.error == None <==>
      !Falsy(mnemonic) && AllInWordlist(bip, Words(bip, mnemonic.value)) && r.isValidLength
  {
    if Falsy(mnemonic) then WordSetResult(Some(NotEnoughWords), None, false)
    else
      var split := Words(bip, mnemonic.value);
      var isValidLength := |split| >= MnemonicLengthMin && |split| <= MnemonicLengthMax;
      var invalidWords := InvalidWords(bip, split);
      if |invalidWords| > 0 then
        WordSetResult(Some(InvalidWord), Some(Last(invalidWords)), isValidLength)
      else if |split| < MnemonicLengthMin then
        WordSetResult(Some(NotEnoughWords), None, isValidLength)
      else if |split| > MnemonicLengthMax then
        WordSetResult(Some(TooManyWords), None, isValidLength)
      else
        WordSetResult(None, None, isValidLength)
  }

  /** validateMnemonic: the word-set checks, then the BIP-39 checksum. */
  function ValidateMnemonic(bip: Bip39, mnemonic: Option<string>): (r: MnemonicResult)
    ensures r.error.Some? != r.validMnemonic.Some?
    ensures r.validMnemonic.Some? ==> !Falsy(mnemonic) && r.validMnemonic.value == bip.normalize(mnemonic.value)
  {
    var setResult := ValidateSetOfWords(bip, mnemonic);
    if setResult.error.Some? then MnemonicResult(setResult.error, setResult.invalidWord, None)
    else
      var formatted := bip.normalize(mnemonic.GetOr(""));
      if !bip.checksumOk(formatted) then MnemonicResult(Some(InvalidPhrase), None, None)
      else MnemonicResult(None, None, Some(formatted))
  }

  /** The last element of the invalid-word list is the last invalid word of the phrase. */
  lemma {:induction false} LastOfInvalidWords(bip: Bip39, words: seq<string>, k: nat)
    requires LastInvalidAt(bip, words, k)
    ensures InvalidWords(bip, words) != [] && Last(InvalidWords(bip, words)) == words[k]
  {
    if k == 0 {
      assert AllInWordlist(bip, words[1..]) by {
        forall i | 0 <= i < |words[1..]| ensures bip.inWordlist(words[1..][i]) {
          assert words[1..][i] == words[i + 1];
        }
      }
    } else {
      assert LastInvalidAt(bip, words[1..], k - 1) by {
        forall j | k - 1 < j < |words[1..]| ensures bip.inWordlist(words[1..][j]) {
          assert words[1..][j] == words[j + 1];
        }
      }
      LastOfInvalidWords(bip, words[1..], k - 1);
    }
  }

  /**
   * Any word outside the list makes the result InvalidWord, whatever the
   * length, and the word reported is the last invalid one.
   */
  lemma InvalidWordTakesPrecedence(bip: Bip39, mnemonic: string, k: nat)
    requires mnemonic != ""
    requires LastInvalidAt(bip, Words(bip, mnemonic), k)
    ensures ValidateSetOfWords(bip, Some(mnemonic)).error == Some(InvalidWord)
    ensures ValidateSetOfWords(bip, Some(mnemonic)).invalidWord == Some(Words(bip, mnemonic)[k])
  {
    LastOfInvalidWords(bip, Words(bip, mnemonic), k);
  }

  /** With every word in the list, only the length decides. */
  lemma LengthDecidesWhenAllWordsValid(bip: Bip39, mnemonic: string)
    requires mnemonic != ""
    requires AllInWordlist(bip, Words(bip, mnemonic))
    ensures var n := |Words(bip, mnemonic)|;
      ValidateSetOfWords(bip, Some(mnemonic)).error ==
        if n < MnemonicLengthMin then Some(NotEnoughWords)
        else if n > MnemonicLengthMax then Some(TooManyWords)
        else None
  {
  }

  /** Word-set errors pass through validateMnemonic unchanged. */
  lemma WordSetErrorsPassThrough(bip: Bip39, mnemonic: Option<string>)
    requires ValidateSetOfWords(bip, mnemonic).error.Some?
    ensures ValidateMnemonic(bip, mnemonic).error == ValidateSetOfWords(bip, mnemonic).error
    ensures ValidateMnemonic(bip, mnemonic).invalidWord == ValidateSetOfWords(bip, mnemonic).invalidWord
  {
  }

  /** A phrase that passes the word-set checks but fails the checksum is InvalidPhrase. */
  lemma ChecksumFailureIsInvalidPhrase(bip: Bip39, mnemonic: string)
    requires ValidateSetOfWords(bip, Some(mnemonic)).error.None?
    requires !bip.checksumOk(bip.normalize(mnemonic))
    ensures ValidateMnemonic(bip, Some(mnemonic)) == MnemonicResult(Some(InvalidPhrase), None, None)
  {
  }

  /**
   * A phrase is accepted exactly when it is present, every word is in the
   * list, the length is in range and the checksum holds.
   */
  lemma AcceptedIff(bip: Bip39, mnemonic: Option<string>)
    ensures ValidateMnemonic(bip, mnemonic).validMnemonic.Some? <==>
      && !Falsy(mnemonic)
      && AllInWordlist(bip, Words(bip, mnemonic.value))
      && ValidLength(Words(bip, mnemonic.value))
      && bip.checksumOk(bip.normalize(mnemonic.value))
  {
  }

  /** isValidDerivationPath: six '/'-separated segments, the first being "m". */
  function IsValidDerivationPath(derivationPath: string): (r: bool)
    ensures r ==> Occurrences(Trim(derivationPath), '/') == 5
  {
    if derivationPath == "" then false
    else
      var split := Split(Trim(derivationPath), '/');
      split[0] == "m" && |split| == 6
  }

  /** An accepted path is "m" and five more '/'-free segments joined by '/'. */
  lemma AcceptedPathShape(derivationPath: string)
    requires IsValidDerivationPath(derivationPath)
    ensures var segments := Split(Trim(derivationPath), '/');
      && |segments| == 6 && segments[0] == "m"
      && (forall i :: 0 <= i < 6 ==> '/' !in segments[i])
      && Join(segments, '/') == Trim(derivationPath)
  {
    JoinSplit(Trim(derivationPath), '/');
  }

  /** Conversely, every such path is accepted. */
  lemma PathOfSegmentsAccepted(derivationPath: string, segments: seq<string>)
    requires derivationPath != ""
    requires |segments| == 6 && segments[0] == "m"
    requires forall i :: 0 <= i < 6 ==> '/' !in segments[i]
    requires Trim(derivationPath) == Join(segments, '/')
    ensures IsValidDerivationPath(derivationPath)
  {
    SplitJoin(segments, '/');
  }

  const EthereumPath: string := "m/44'/60'/0'/0/0"

  lemma EthereumPathTrimmed()
    ensures Trim(EthereumPath) == EthereumPath
  {
    assert !IsJsWhitespace(EthereumPath[0]);
    assert !IsJsWhitespace(EthereumPath[|EthereumPath| - 1]);
  }

  lemma EthereumPathJoined(segments: seq<string>)
    requires segments == ["m", "44'", "60'", "0'", "0", "0"]
    ensures Join(segments, '/') == EthereumPath
  {
    assert Join(segments[5..], '/') == "0";
    assert Join(segments[4..], '/') == "0/0" by { assert segments[4..][1..] == segments[5..]; }
    assert Join(segments[3..], '/') == "0'/0/0" by { assert segments[3..][1..] == segments[4..]; }
    assert Join(segments[2..], '/') == "60'/0'/0/0" by { assert segments[2..][1..] == segments[3..]; }
    assert Join(segments[1..], '/') == "44'/60'/0'/0/0" by { assert segments[1..][1..] == segments[2..]; }
  }

  lemma EthereumSegmentsSeparatorFree(segments: seq<string>)
    requires segments == ["m", "44'", "60'", "0'", "0", "0"]
    ensures forall i :: 0 <= i < 6 ==> '/' !in segments[i]
  {
  }

  /** The usual Ethereum path m/44'/60'/0'/0/0 is accepted. */
  lemma EthereumPathAccepted()
    ensures IsValidDerivationPath(EthereumPath)
  {
    var segments := ["m", "44'", "60'", "0'", "0", "0"];
    var path := EthereumPath;
    EthereumPathTrimmed();
    EthereumPathJoined(segments);
    EthereumSegmentsSeparatorFree(segments);
    assert path != "" by { assert path[0] == 'm'; }
    PathOfSegmentsAccepted(path, segments);
  }

  /** userFinishedTypingWord: the phrase ends with a space. */
  function UserFinishedTypingWord(mnemonic: Option<string>): (r: bool)
    ensures Falsy(mnemonic) ==> !r
  {
    if Falsy(mnemonic) then false
    else
      var lastChar := mnemonic.value[|mnemonic.value| - 1];
      lastChar == ' '
  }

  /** The user has finished a word exactly when the word being typed after it is still empty. */
  lemma FinishedTypingIffEmptyLastWord(mnemonic: string)
    requires mnemonic != ""
    ensures UserFinishedTypingWord(Some(mnemonic)) <==> Last(Split(mnemonic, ' ')) == ""
  {
    LastPieceEmpty(mnemonic, ' ');
  }
}
