/**
 * The parts of the Unicode character database the text utilities
 * consult. They are not modelled: each is an uninterpreted function that
 * the operations receive as an argument.
 */
module UnicodeData {
  datatype Unicode = Unicode(
    /** `unicodedata.normalize('NFC', s)` */
    nfc: string -> string,
    /** `str.lower()` */
    lower: string -> string,
    /** `str.isalpha()` on one character */
    isAlpha: char -> bool,
    /** The regular-expression class `\w` */
    isWord: char -> bool,
    /** `unicodedata.category(c).startswith('C')` */
    isControl: char -> bool)
}
