/**
 * normalizeAndValidateSecret, and the check the scan command makes on a
 * decoded otpauth URI.
 */
module Secret {
  import opened Common
  import opened Text

  /** The Base32 alphabet of section 6 of RFC 4648: A-Z and 2-7. */
  predicate IsBase32Char(c: char)
  {
    ('A' <= c <= 'Z') || ('2' <= c <= '7')
  }

  /**
   * Accepted by Go's unpadded StdEncoding DecodeString: every character is in
   * the alphabet, except carriage returns and line feeds, which the decoder
   * strips before decoding.
   */
  function IsBase32(s: string): (b: bool)
    ensures b ==> ' ' !in s
    ensures b ==> forall i :: 0 <= i < |s| ==> UpperChar(s[i]) == s[i]
  {
    forall i :: 0 <= i < |s| ==> IsBase32Char(s[i]) || s[i] == '\r' || s[i] == '\n'
  }

  /**
   * The secret as normalised: trimmed, without spaces, upper case. It is empty
   * exactly when the input is all white space, and otherwise neither starts
   * nor ends with white space.
   */
  function Canonical(raw: string): (r: string)
    ensures ' ' !in r
    ensures forall i :: 0 <= i < |r| ==> !('a' <= r[i] <= 'z')
    ensures r == [] <==> forall i :: 0 <= i < |raw| ==> IsSpace(raw[i])
    ensures r != [] ==> !IsSpace(r[0]) && !IsSpace(r[|r| - 1])
  {
    var kept := RemoveSpaces(TrimSpace(raw));
    TrimmedWithoutSpaces(raw);
    UpperWithoutSpaces(kept);
    ToUpper(kept)
  }

  /** Trimmed and without spaces: empty only if the trimmed input was, and white space at neither end. */
  lemma TrimmedWithoutSpaces(raw: string)
    ensures RemoveSpaces(TrimSpace(raw)) == [] <==> TrimSpace(raw) == []
    ensures var kept := RemoveSpaces(TrimSpace(raw));
            kept != [] ==> !IsSpace(kept[0]) && !IsSpace(kept[|kept| - 1])
  {
    var t := TrimSpace(raw);
    if t != [] {
      assert t == [t[0]] + t[1..];
      assert t[0] != ' ' by { assert IsSpace(' '); }
    }
    TrimSpaceRemoveSpaces(raw);
  }

  /** Upper-casing adds no space. */
  lemma UpperWithoutSpaces(s: string)
    requires ' ' !in s
    ensures ' ' !in ToUpper(s)
  {
    var r := ToUpper(s);
    forall i | 0 <= i < |r| ensures r[i] != ' ' {
      assert s[i] in s;
    }
  }

  /**
   * normalizeAndValidateSecret: a white-space-only input fails with NoSecret
   * before any Base32 check; a normalised secret outside the alphabet fails
   * with InvalidSecret; otherwise the normalised string itself is returned.
   */
  function NormalizeSecret(raw: string): (r: Result<string>)
    ensures r == Err(NoSecret) <==> forall i :: 0 <= i < |raw| ==> IsSpace(raw[i])
    ensures r == Err(InvalidSecret) <==> Canonical(raw) != [] && !IsBase32(Canonical(raw))
    ensures r.Err? ==> r.error == NoSecret || r.error == InvalidSecret
    ensures r.Ok? ==> r.value == Canonical(raw)
    ensures r.Ok? ==> r.value != [] && ' ' !in r.value && IsBase32(r.value)
  {
    var normalized := Canonical(raw);
    if normalized == [] then Err(NoSecret)
    else if !IsBase32(normalized) then Err(InvalidSecret)
    else Ok(normalized)
  }

  /** A string that normalisation would not change is its own canonical form. */
  lemma CanonicalFixed(s: string)
    requires s != [] && !IsSpace(s[0]) && !IsSpace(s[|s| - 1])
    requires ' ' !in s
    requires forall i :: 0 <= i < |s| ==> UpperChar(s[i]) == s[i]
    ensures Canonical(s) == s
  {
    assert TrimSpace(s) == s by {
      assert TrimLeft(s) == s;
      assert TrimRight(s) == s;
    }
    assert RemoveSpaces(s) == s;
    assert ToUpper(s) == s;
  }

  /** A normalised secret normalises to itself. */
  lemma NormalizeIdempotent(raw: string)
    requires NormalizeSecret(raw).Ok?
    ensures NormalizeSecret(NormalizeSecret(raw).value) == NormalizeSecret(raw)
  {
    var s := NormalizeSecret(raw).value;
    assert forall i :: 0 <= i < |s| ==> UpperChar(s[i]) == s[i] by {
      forall i | 0 <= i < |s| ensures UpperChar(s[i]) == s[i] {
        assert IsBase32Char(s[i]) || s[i] == '\r' || s[i] == '\n';
      }
    }
    CanonicalFixed(s);
  }

  /** A letter of either case or a digit 2-7. */
  predicate IsSecretChar(c: char)
  {
    ('a' <= c <= 'z') || ('A' <= c <= 'Z') || ('2' <= c <= '7')
  }

  /**
   * A secret typed in lower case, upper case or a mix of both is accepted,
   * and comes back with every letter in upper case.
   */
  lemma MixedCaseAccepted(s: string)
    requires s != []
    requires forall i :: 0 <= i < |s| ==> IsSecretChar(s[i])
    ensures NormalizeSecret(s) == Ok(ToUpper(s))
    ensures forall i :: 0 <= i < |s| ==> IsBase32Char(ToUpper(s)[i])
  {
    SecretCharsCanonical(s);
    UpperSecretChars(s);
  }

  /** Secret characters are neither white space nor spaces, so only upper-casing is left to do. */
  lemma SecretCharsCanonical(s: string)
    requires s != []
    requires forall i :: 0 <= i < |s| ==> IsSecretChar(s[i])
    ensures Canonical(s) == ToUpper(s)
  {
    assert !IsSpace(s[0]) && !IsSpace(s[|s| - 1]);
    assert TrimSpace(s) == s by {
      assert TrimLeft(s) == s;
      assert TrimRight(s) == s;
    }
    assert ' ' !in s by {
      forall i | 0 <= i < |s| ensures s[i] != ' ' {
        assert IsSecretChar(s[i]);
      }
    }
  }

  /** Upper-casing secret characters lands in the Base32 alphabet. */
  lemma UpperSecretChars(s: string)
    requires forall i :: 0 <= i < |s| ==> IsSecretChar(s[i])
    ensures forall i :: 0 <= i < |s| ==> IsBase32Char(ToUpper(s)[i])
  {
    var u := ToUpper(s);
    forall i | 0 <= i < |s| ensures IsBase32Char(u[i]) {
      assert u[i] == UpperChar(s[i]);
    }
  }

  /**
   * Spaces typed to group the secret visually do not matter: inserting one
   * anywhere leaves the outcome unchanged.
   */
  lemma NormalizeIgnoresSpaces(a: string, b: string)
    ensures NormalizeSecret(a + " " + b) == NormalizeSecret(a + b)
  {
    assert RemoveSpaces(a + " " + b) == RemoveSpaces(a + b) by {
      RemoveSpacesAppend(a + " ", b);
      RemoveSpacesAppend(a, " ");
      RemoveSpacesAppend(a, b);
      assert RemoveSpaces(" ") == [];
      assert RemoveSpaces(a) + [] == RemoveSpaces(a);
    }
    assert Canonical(a + " " + b) == Canonical(a + b) by {
      TrimSpaceRemoveSpaces(a + " " + b);
      TrimSpaceRemoveSpaces(a + b);
    }
  }

  /**
   * The scan command's handling of a decoded otpauth URI, given the parsed
   * scheme, host and secret query parameter: the secret is normalised first,
   * so its error wins over a wrong scheme or host.
   */
  function ScanSecret(scheme: string, host: string, secretParam: string): (r: Result<string>)
    ensures NormalizeSecret(secretParam).Err? ==> r == NormalizeSecret(secretParam)
    ensures NormalizeSecret(secretParam).Ok? && (scheme != "otpauth" || host != "totp") ==> r == Err(NotTotp)
    ensures r.Ok? <==> NormalizeSecret(secretParam).Ok? && scheme == "otpauth" && host == "totp"
    ensures r.Ok? ==> r.value == Canonical(secretParam) && IsBase32(r.value)
  {
    match NormalizeSecret(secretParam)
    case Err(e) => Err(e)
    case Ok(secret) =>
      if scheme != "otpauth" || host != "totp" then Err(NotTotp) else Ok(secret)
  }
}
