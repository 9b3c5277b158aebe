/** Outcome types shared by the whole model. */
module Common {

  datatype Option<+T> = None | Some(value: T)

  datatype Result<+T> = Ok(value: T) | Err(error: Error)

  /** The distinct failures the core reports. */
  datatype Error =
    | NoSecret          // the secret is empty once normalised ("No secret was given")
    | InvalidSecret     // the secret is not unpadded Base32 ("Invalid secret (expected Base32)")
    | NotTotp           // a scanned URI is not otpauth://totp ("Given QR code is not for TOTP")
    | SecretTooLarge    // keyring.Set reported ErrSetDataTooBig, wrapped with its own message
    | NameNotFound      // keyring.Get reported ErrNotFound to getItem ("Given name is not found")
    | KeyringFailure    // any other keyring error, passed through unchanged
    | IndexUnreadable   // the index file cannot be located, read or parsed
    | IndexWriteFailed  // os.WriteFile failed while saving the index
}
