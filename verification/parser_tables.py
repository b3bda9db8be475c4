"""Compares the tables of a parse.c written by Lemon with the predicate Fits of
ParserTables.dfy.

    python3 parser_tables.py path/to/parse.c

The item sets are the smallest ones that Fits allows: the items that the reduce
actions of a state demand, carried back over the transitions that lead to the
state.  Each condition of Fits that these sets do not meet is listed.
"""

import re
import sys

START = "input"


class Tables:
    def __init__(self, text):
        self.text = text
        self.action = self.numbers("yy_action")
        self.lookahead = self.numbers("yy_lookahead")
        self.shift_ofst = self.numbers("yy_shift_ofst")
        self.reduce_ofst = self.numbers("yy_reduce_ofst")
        self.default = self.numbers("yy_default")
        self.fallback = [int(n) for n in re.findall(r"(\d+),\s*/\*", self.body("yyFallback"))]
        self.rule_lhs = self.numbers("yyRuleInfoLhs")
        self.rule_nrhs = self.numbers("yyRuleInfoNRhs")
        self.names = re.findall(r'"([^"]*)"', self.body("yyTokenName"))
        self.rule_names = re.findall(r'"([^"]*)"', self.body("yyRuleName"))
        self.units = {int(r) for r in re.findall(r"/\* \((\d+)\) [^*]*?\(OPTIMIZED OUT\) \*/", text)}
        for name in ("MAX_SHIFT", "MIN_SHIFTREDUCE", "MAX_SHIFTREDUCE", "ERROR_ACTION",
                     "ACCEPT_ACTION", "MIN_REDUCE", "MAX_REDUCE"):
            setattr(self, name, self.constant("YY_" + name))
        self.YYNTOKEN = self.constant("YYNTOKEN")
        self.YYNOCODE = self.constant("YYNOCODE")
        self.YYWILDCARD = self.constant("YYWILDCARD")

    def body(self, name):
        found = re.search(r"static const [\w *]+\b" + name + r"\[\]\s*=\s*\{(.*?)\};", self.text, re.S)
        return "\n".join(line for line in found.group(1).split("\n") if not line.startswith("#"))

    def numbers(self, name):
        return [int(n) for n in re.findall(r"-?\d+", re.sub(r"/\*.*?\*/", "", self.body(name), flags=re.S))]

    def constant(self, name):
        return int(re.search(r"#define " + name + r"\s+(\d+)", self.text).group(1))

    def find_shift(self, token, state):
        i = self.shift_ofst[state] + token
        if i < len(self.lookahead) and self.lookahead[i] == token:
            return self.action[i], token
        if token < len(self.fallback) and self.fallback[token] != 0:
            return self.find_shift(self.fallback[token], state)
        j = self.shift_ofst[state] + self.YYWILDCARD
        if j < len(self.lookahead) and self.lookahead[j] == self.YYWILDCARD and token > 0:
            return self.action[j], self.YYWILDCARD
        return self.default[state], token

    def goto(self, state, symbol):
        if state < len(self.reduce_ofst):
            i = self.reduce_ofst[state] + symbol
            if 0 <= i < len(self.action) <= len(self.lookahead) and self.lookahead[i] == symbol:
                return self.action[i]
        return None


class Grammar:
    def __init__(self, t):
        number = {name: n for n, name in enumerate(t.names)}
        sides = [rule.split("::=") for rule in t.rule_names]
        self.start = number[START]
        self.lhs = [number[left.strip()] for left, _ in sides]
        self.rhs = [[{number[s] for s in place.split("|")} for place in right.split()] for _, right in sides]
        self.leads_to = {}
        for r in t.units:
            if len(self.rhs[r]) == 1:
                self.leads_to.setdefault(self.lhs[r], set()).update(self.rhs[r][0])

    def stands(self, expected, symbol):
        seen, todo = {expected}, [expected]
        while todo:
            for b in self.leads_to.get(todo.pop(), ()):
                if b not in seen:
                    seen.add(b)
                    todo.append(b)
        return symbol in seen

    def fills(self, place, symbol):
        return any(self.stands(a, symbol) for a in place)


class Comparison:
    def __init__(self, t, g):
        self.t, self.g, self.broken = t, g, []
        self.items = [set() for _ in range(t.MAX_SHIFT + 1)]
        self.moves = [set() for _ in range(t.MAX_SHIFT + 1)]
        self.todo, self.gone = [], set()

    def complain(self, condition, state, symbol, *more):
        self.broken.append(" ".join([condition, "state", str(state), self.t.names[symbol], *map(str, more)]))

    def demand(self, state, rule, dot):
        if (rule, dot) not in self.items[state]:
            self.items[state].add((rule, dot))
            self.todo.append((state, rule, dot))

    def carry_back(self, state, symbol, rule, dot):
        if not self.g.fills(self.g.rhs[rule][dot - 1], symbol):
            self.complain("Moves", state, symbol, self.t.rule_names[rule], dot)
        self.demand(state, rule, dot - 1)

    def move(self, state, symbol, target):
        if target == 0:
            self.complain("Moves", state, symbol, "to state 0")
        if (state, symbol) not in self.moves[target]:
            self.moves[target].add((state, symbol))
            for rule, dot in list(self.items[target]):
                if dot > 0:
                    self.carry_back(state, symbol, rule, dot)

    def complete(self, state, symbol, rule):
        places = self.g.rhs[rule]
        if not places or not self.g.fills(places[-1], symbol):
            self.complain("Completes", state, symbol, self.t.rule_names[rule])
        else:
            self.demand(state, rule, len(places) - 1)

    def shifts(self, state, token):
        t = self.t
        act, symbol = t.find_shift(token, state)
        if act <= t.MAX_SHIFT:
            self.move(state, symbol, act)
        elif t.MIN_SHIFTREDUCE <= act <= t.MAX_SHIFTREDUCE:
            self.complete(state, symbol, act - t.MIN_SHIFTREDUCE)
        elif t.MIN_REDUCE <= act <= t.MAX_REDUCE:
            self.demand(state, act - t.MIN_REDUCE, len(self.g.rhs[act - t.MIN_REDUCE]))
        elif act != t.ERROR_ACTION:
            self.complain("ShiftsFit", state, token, act)

    def gotos(self, state, symbol):
        t = self.t
        if (state, symbol) in self.gone:
            return
        self.gone.add((state, symbol))
        act = t.goto(state, symbol)
        if act is None:
            self.complain("GotoDefined", state, symbol)
        elif act <= t.MAX_SHIFT:
            self.move(state, symbol, act)
        elif act == t.ACCEPT_ACTION:
            if state != 0 or not self.g.stands(self.g.start, symbol):
                self.complain("GotosFit", state, symbol, "accepts")
        elif t.MIN_REDUCE <= act <= t.MAX_REDUCE:
            self.complete(state, symbol, act - t.MIN_REDUCE)
        else:
            self.complain("GotosFit", state, symbol, act)

    def sizes(self):
        t, g = self.t, self.g
        rules = t.MAX_REDUCE - t.MIN_REDUCE + 1
        return [what for what, holds in [
            ("TablesOk: states", len(t.shift_ofst) == len(t.default) == t.MAX_SHIFT + 1),
            ("TablesOk: rules", len(t.rule_lhs) == len(t.rule_nrhs) == rules),
            ("TablesOk: actions", len(t.action) <= len(t.lookahead)),
            ("TablesOk: padding", all(a == t.YYNOCODE for a in t.lookahead[len(t.action):])),
            ("TablesOk: fallbacks", all(f == 0 or f < t.YYNTOKEN and (f >= len(t.fallback) or t.fallback[f] == 0)
                                        for f in t.fallback) and t.fallback[:1] == [0]),
            ("Fits: left-hand sides", g.lhs == t.rule_lhs),
            ("Fits: right-hand sides", [-len(places) for places in g.rhs] == t.rule_nrhs),
        ] if not holds]

    def compare(self):
        self.broken += self.sizes()
        for state in range(self.t.MAX_SHIFT + 1):
            for token in range(self.t.YYNTOKEN):
                self.shifts(state, token)
        while self.todo:
            state, rule, dot = self.todo.pop()
            if dot == 0:
                self.gotos(state, self.g.lhs[rule])
            elif state == 0:
                self.complain("Fits", 0, self.g.lhs[rule], "item in the middle of a rule")
            else:
                for source, symbol in list(self.moves[state]):
                    self.carry_back(source, symbol, rule, dot)
        return self.broken


def main():
    with open(sys.argv[1], errors="replace") as source:
        t = Tables(source.read())
    broken = Comparison(t, Grammar(t)).compare()
    print("\n".join(broken + ["%d conditions of Fits do not hold" % len(broken)]))


if __name__ == "__main__":
    main()
