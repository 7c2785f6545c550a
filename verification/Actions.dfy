/** The responses to an event. */
module Actions {
  datatype Action = Allow | LogOnly | Alert | Challenge | Block | RateLimit
}
