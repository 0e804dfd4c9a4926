/** The rules of src/lib/rate-limit-config.ts: how many requests a window admits. */
module RateLimitRules {

  type Seconds = n: int | n > 0 witness 1

  datatype Rule = Rule(limit: nat, windowSeconds: Seconds)

  function WindowMs(rule: Rule): int {
    rule.windowSeconds * 1000
  }
}
