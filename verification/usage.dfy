/** The errors the command-line front end reports to its user. */
module Usage {

  datatype AppError =
      /** `BadUsageException`: the arguments or a configuration line are
          malformed; the message is what the user sees. */
    | BadUsage(message: string)
      /** A configuration file that cannot be opened. */
    | ConfigFileNotFound(file: string)
}
